/** The presentation as reveal.js keeps it: class flags and attributes changed in place, proved to follow `RevealView`. */
module RevealDeck {
  import opened Wrappers
  import opened RevealView
  import opened RevealFragments
  import opened RevealSlides

  // ---------- fragments of one slide ----------

  /** The positions of the visible fragments before `n`. */
  function VisibleAt(frs: seq<Fragment>, n: nat): (r: seq<nat>)
    requires n <= |frs|
    ensures |r| <= n && forall a :: 0 <= a < |r| ==> r[a] < n && frs[r[a]].visible
    ensures forall i {:trigger i in r} :: 0 <= i < n && frs[i].visible ==> i in r
    ensures forall a, b :: 0 <= a < b < |r| ==> r[a] != r[b]
  {
    if n == 0 then [] else VisibleAt(frs, n - 1) + if frs[n - 1].visible then [n - 1] else []
  }

  function AttrsAt(frs: seq<Fragment>, at: seq<nat>): seq<Option<nat>>
    requires forall a :: 0 <= a < |at| ==> at[a] < |frs|
  {
    seq(|at|, a requires 0 <= a < |at| => frs[at[a]].index)
  }

  /** The leading groups of a numbered slide are numbered by themselves. */
  lemma VisibleNumbered(frs: seq<Fragment>, g: nat, k: int)
    requires Numbered(Attrs(frs), g) && Shows(frs, k) && -1 <= k < g
    ensures Numbered(AttrsAt(frs, VisibleAt(frs, |frs|)), k + 1)
  {
    var attrs := AttrsAt(frs, VisibleAt(frs, |frs|));
    forall x: nat ensures x in Explicit(attrs) <==> x < k + 1 {
      if x < k + 1 {
        var i := HolderOf(Attrs(frs), x);
        VisibleHolds(frs, i);
      } else if x in Explicit(attrs) {
        VisibleBelow(frs, k, x);
      }
    }
  }

  lemma SomeSorted(attrs: seq<Option<nat>>, k: nat, sorted: seq<nat>)
    requires Numbered(attrs, k + 1) && forall i :: 0 <= i < |attrs| ==> i in sorted
    ensures sorted != []
  {
    assert k in Explicit(attrs);
    var a := HolderOf(attrs, k);
    assert a in sorted;
  }

  lemma HolderOf(attrs: seq<Option<nat>>, x: nat) returns (i: nat)
    requires x in Explicit(attrs)
    ensures i < |attrs| && attrs[i] == Some(x)
  {
    i :| 0 <= i < |attrs| && attrs[i].Some? && attrs[i].value == x;
  }

  lemma VisibleHolds(frs: seq<Fragment>, i: nat)
    requires i < |frs| && frs[i].visible && frs[i].index.Some?
    ensures frs[i].index.value in Explicit(AttrsAt(frs, VisibleAt(frs, |frs|)))
  {
    var at := VisibleAt(frs, |frs|);
    assert i in at;
    var a :| 0 <= a < |at| && at[a] == i;
    assert AttrsAt(frs, at)[a] == frs[i].index;
  }

  lemma VisibleBelow(frs: seq<Fragment>, k: int, x: nat)
    requires Shows(frs, k) && x in Explicit(AttrsAt(frs, VisibleAt(frs, |frs|)))
    ensures x <= k
  {
    var at := VisibleAt(frs, |frs|);
    var attrs := AttrsAt(frs, at);
    var a :| 0 <= a < |attrs| && attrs[a].Some? && attrs[a].value == x;
    assert frs[at[a]].visible;
  }

  /** `sortFragments` of all fragments of a slide, setting their `data-fragment-index`. On a numbered slide it changes no attribute. */
  method SortAll(frs: seq<Fragment>) returns (r: seq<Fragment>, sorted: seq<nat>)
    ensures |r| == |frs| && forall i :: 0 <= i < |frs| ==> r[i] == frs[i].(index := Some(Rank(Attrs(frs), i)))
    ensures Numbered(Attrs(frs), GroupsOf(frs)) ==> r == frs
    ensures forall i :: 0 <= i < |frs| ==> i in sorted
    ensures forall a :: 0 <= a < |sorted| ==> sorted[a] < |frs|
    ensures forall a, b :: 0 <= a < b < |sorted| ==> sorted[a] != sorted[b]
  {
    var ranks, order := SortFragments(Attrs(frs));
    sorted := order;
    r := seq(|frs|, i requires 0 <= i < |frs| => frs[i].(index := Some(ranks[i])));
    if Numbered(Attrs(frs), GroupsOf(frs)) {
      forall i | 0 <= i < |frs| ensures r[i] == frs[i] { NumberedStays(Attrs(frs), GroupsOf(frs), i); }
    }
  }

  /** `sortFragments( '.fragment.visible' ).pop()`: numbers the visible fragments only, and finds the last of them.
      That leaves every attribute as it was, because the visible fragments are leading groups. */
  method LastVisible(frs: seq<Fragment>, ghost k: int) returns (r: seq<Fragment>, last: Option<nat>)
    requires Numbered(Attrs(frs), GroupsOf(frs)) && Shows(frs, k) && -1 <= k < GroupsOf(frs)
    ensures r == frs && last == if k == -1 then None else Some(k)
  {
    var at := VisibleAt(frs, |frs|);
    var attrs := AttrsAt(frs, at);
    VisibleNumbered(frs, GroupsOf(frs), k);
    var ranks, sorted := SortFragments(attrs);
    r := frs;
    for a := 0 to |at|
      invariant r == frs
    {
      NumberedStays(attrs, k + 1, a);
      r := r[at[a] := r[at[a]].(index := Some(ranks[a]))];
    }
    if k >= 0 { SomeSorted(attrs, k, sorted); }
    if sorted == [] {
      last := None;
    } else {
      var top := sorted[|sorted| - 1];
      last := r[at[top]].index;
      LastIsTop(attrs, sorted, k);
    }
  }

  lemma LastIsTop(attrs: seq<Option<nat>>, sorted: seq<nat>, k: int)
    requires -1 <= k && Numbered(attrs, k + 1) && sorted != []
    requires forall i :: 0 <= i < |attrs| ==> i in sorted
    requires forall a :: 0 <= a < |sorted| ==> sorted[a] < |attrs|
    requires forall a, b :: 0 <= a < b < |sorted| ==> Precedes(attrs, sorted[a], sorted[b])
    ensures k >= 0 && attrs[sorted[|sorted| - 1]] == Some(k as nat)
  {
    var top := sorted[|sorted| - 1];
    NumberedStays(attrs, k + 1, top);
    assert attrs[top].value in Explicit(attrs);
    assert k in Explicit(attrs);
    var i :| 0 <= i < |attrs| && attrs[i] == Some(k as nat);
    NumberedStays(attrs, k + 1, i);
    assert i in sorted;
    var a :| 0 <= a < |sorted| && sorted[a] == i;
    if a < |sorted| - 1 { assert Precedes(attrs, sorted[a], top); }
  }

  /** What `updateFragments` makes of a fragment, given the index to reveal up to; without one everything is hidden. */
  function Revealed(fr: Fragment, index: Option<int>): Fragment
    requires fr.index.Some?
  {
    var shown := index.Some? && fr.index.value <= index.value;
    fr.(visible := shown, current := shown && fr.index.value == index.value)
  }

  /** The loop of `updateFragments`, in the order of revelation; it reports whether any fragment was shown or hidden. */
  method Reveal(frs: seq<Fragment>, sorted: seq<nat>, index: Option<int>) returns (r: seq<Fragment>, changed: bool)
    requires forall i :: 0 <= i < |frs| ==> i in sorted && frs[i].index.Some?
    requires forall a :: 0 <= a < |sorted| ==> sorted[a] < |frs|
    requires forall a, b :: 0 <= a < b < |sorted| ==> sorted[a] != sorted[b]
    ensures |r| == |frs| && forall i :: 0 <= i < |frs| ==> r[i] == Revealed(frs[i], index)
    ensures changed <==> exists i :: 0 <= i < |frs| && r[i].visible != frs[i].visible
  {
    r, changed := frs, false;
    for a := 0 to |sorted|
      invariant |r| == |frs|
      invariant forall i :: 0 <= i < |frs| ==> r[i] == if i in sorted[..a] then Revealed(frs[i], index) else frs[i]
      invariant changed <==> exists i :: 0 <= i < |frs| && r[i].visible != frs[i].visible
    {
      var i := sorted[a];
      assert i !in sorted[..a];
      var shown := index.Some? && r[i].index.value <= index.value;
      ghost var before := r;
      if shown != r[i].visible { changed := true; }
      r := r[i := r[i].(visible := shown, current := shown && r[i].index.value == index.value)];
      assert sorted[..a + 1] == sorted[..a] + [i];
      assert forall j :: 0 <= j < |frs| && j != i ==> r[j] == before[j];
      assert r[i].visible != frs[i].visible <==> shown != frs[i].visible;
    }
    assert sorted[..|sorted|] == sorted;
  }

  /** Revealing up to an index shows the leading groups up to it, marks its group, and changes something exactly when
      another group becomes the last visible one. */
  lemma RevealShows(frs: seq<Fragment>, k: int, index: Option<int>, r: seq<Fragment>)
    requires Numbered(Attrs(frs), GroupsOf(frs)) && Shows(frs, k) && -1 <= k < GroupsOf(frs)
    requires |r| == |frs| && forall i :: 0 <= i < |frs| ==> r[i] == Revealed(frs[i], index)
    ensures var k' := if index.Some? then Clamp(index.value, -1, GroupsOf(frs) - 1) else -1;
      && Attrs(r) == Attrs(frs) && Shows(r, k')
      && (MarkedAt(r, k') || (Unmarked(r) && (k' == -1 || k' == GroupsOf(frs) - 1)))
      && (k' != k <==> exists i :: 0 <= i < |frs| && r[i].visible != frs[i].visible)
  {
    var k' := if index.Some? then Clamp(index.value, -1, GroupsOf(frs) - 1) else -1;
    assert Attrs(r) == Attrs(frs);
    forall i | 0 <= i < |frs| ensures 0 <= frs[i].index.value < GroupsOf(frs) { assert Attrs(frs)[i].value in Explicit(Attrs(frs)); }
    if k' != k {
      var x: nat := if k' > k then k' else k;
      assert x in Explicit(Attrs(frs));
      var i :| 0 <= i < |frs| && Attrs(frs)[i] == Some(x);
      assert r[i].visible != frs[i].visible;
    }
  }
}
