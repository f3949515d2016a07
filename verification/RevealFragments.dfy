/** reveal.js's `sortFragments`: fragments are numbered group by group, the author's indices first, then the others in document order. */
module RevealFragments {
  import opened Wrappers

  // ---------- what the numbering is ----------

  /** The explicit indices in use. */
  function Explicit(attrs: seq<Option<nat>>): (s: set<nat>) {
    set i | 0 <= i < |attrs| && attrs[i].Some? :: attrs[i].value
  }

  function Lower(s: set<nat>, x: nat): (r: set<nat>)
    ensures r <= s
  {
    set v | v in s && v < x
  }

  function Below(s: set<nat>, x: nat): (n: nat) {
    |Lower(s, x)|
  }

  /** The positions before `n` holding `key`, in document order. */
  function Holding(attrs: seq<Option<nat>>, n: nat, key: Option<nat>): (r: seq<nat>)
    requires n <= |attrs|
    ensures forall a :: 0 <= a < |r| ==> r[a] < n && attrs[r[a]] == key
    ensures forall a, b :: 0 <= a < b < |r| ==> r[a] < r[b]
    ensures forall j {:trigger j in r} :: 0 <= j < n && attrs[j] == key ==> j in r
  {
    if n == 0 then [] else Holding(attrs, n - 1, key) + if attrs[n - 1] == key then [n - 1] else []
  }

  /** The new index of the fragment at `i`: how many smaller explicit indices are in use, or, without an index of its own,
      how many explicit indices and earlier fragments without one there are. */
  function Rank(attrs: seq<Option<nat>>, i: nat): nat
    requires i < |attrs|
  {
    if attrs[i].Some? then Below(Explicit(attrs), attrs[i].value) else |Explicit(attrs)| + |Holding(attrs, i, None)|
  }

  function GroupCount(attrs: seq<Option<nat>>): nat {
    |Explicit(attrs)| + |Holding(attrs, |attrs|, None)|
  }

  /** Fragment `a` is revealed before `b`, or with it but stands earlier. */
  predicate Precedes(attrs: seq<Option<nat>>, a: nat, b: nat)
    requires a < |attrs| && b < |attrs|
  {
    Rank(attrs, a) < Rank(attrs, b) || (Rank(attrs, a) == Rank(attrs, b) && a < b)
  }

  /** The same order, read off the author's indices. */
  predicate KeyPrecedes(attrs: seq<Option<nat>>, a: nat, b: nat) {
    && a < |attrs| && b < |attrs|
    && match (attrs[a], attrs[b])
       case (Some(x), Some(y)) => x < y || (x == y && a < b)
       case (Some(_), None) => true
       case (None, Some(_)) => false
       case (None, None) => a < b
  }

  lemma SubsetSize(a: set<nat>, b: set<nat>)
    requires a <= b
    ensures |a| <= |b|
  {
    if a != {} {
      var x :| x in a;
      SubsetSize(a - {x}, b - {x});
    }
  }

  lemma BelowMonotone(s: set<nat>, x: nat, y: nat)
    requires x in s && x < y
    ensures Below(s, x) < Below(s, y)
  {
    assert Lower(s, x) <= Lower(s, y) - {x} && x in Lower(s, y);
    SubsetSize(Lower(s, x), Lower(s, y) - {x});
  }

  lemma BelowStep(s: set<nat>, x: nat)
    ensures Below(s, x + 1) == Below(s, x) + if x in s then 1 else 0
  {
    if x in s { assert Lower(s, x + 1) == Lower(s, x) + {x}; } else { assert Lower(s, x + 1) == Lower(s, x); }
  }

  lemma BelowSize(s: set<nat>, x: nat)
    requires x in s
    ensures Below(s, x) < |s|
  {
    assert Lower(s, x) <= s - {x};
    SubsetSize(Lower(s, x), s - {x});
  }

  lemma HoldingPrefix(attrs: seq<Option<nat>>, n: nat, j: nat, key: Option<nat>)
    requires j < n <= |attrs| && attrs[j] == key
    ensures |Holding(attrs, j, key)| < |Holding(attrs, n, key)| && Holding(attrs, n, key)[|Holding(attrs, j, key)|] == j
  {
    if j < n - 1 { HoldingPrefix(attrs, n - 1, j, key); }
  }

  // ---------- what the numbering guarantees ----------

  /** Order and grouping of explicit indices are kept; fragments without one come last, one by one, in document order. */
  lemma RankOrder(attrs: seq<Option<nat>>, a: nat, b: nat)
    requires a < b < |attrs|
    ensures attrs[a].Some? && attrs[b].Some? ==>
      (Rank(attrs, a) < Rank(attrs, b) <==> attrs[a].value < attrs[b].value)
      && (Rank(attrs, a) == Rank(attrs, b) <==> attrs[a].value == attrs[b].value)
    ensures attrs[b].None? ==> Rank(attrs, a) < Rank(attrs, b)
    ensures attrs[a].None? && attrs[b].Some? ==> Rank(attrs, b) < Rank(attrs, a)
  {
    var s := Explicit(attrs);
    if attrs[a].Some? && attrs[b].Some? {
      if attrs[a].value < attrs[b].value { BelowMonotone(s, attrs[a].value, attrs[b].value); }
      if attrs[b].value < attrs[a].value { BelowMonotone(s, attrs[b].value, attrs[a].value); }
    } else if attrs[a].Some? {
      BelowSize(s, attrs[a].value);
    } else if attrs[b].Some? {
      BelowSize(s, attrs[b].value);
    } else {
      HoldingPrefix(attrs, b, a, None);
    }
  }

  lemma {:induction false} NthElement(s: set<nat>, r: nat)
    requires r < |s|
    ensures exists x :: x in s && Below(s, x) == r
    decreases |s|
  {
    var m := Largest(s);
    var rest := s - {m};
    if r == |s| - 1 {
      assert Lower(s, m) == rest;
      assert m in s && Below(s, m) == r;
    } else {
      NthElement(rest, r);
      var x :| x in rest && Below(rest, x) == r;
      assert Lower(s, x) == Lower(rest, x);
      assert x in s && Below(s, x) == r;
    }
  }

  lemma Largest(s: set<nat>) returns (m: nat)
    requires s != {}
    ensures m in s && forall x :: x in s ==> x <= m
  {
    m :| m in s;
    var first, rest := m, s - {m};
    assert s == rest + {first};
    if rest != {} {
      var n := Largest(rest);
      if n > m { m := n; }
    }
  }

  /** The new indices have no gaps: they are exactly those below the number of groups. */
  lemma RanksContiguous(attrs: seq<Option<nat>>, r: nat)
    ensures r < GroupCount(attrs) <==> exists i :: 0 <= i < |attrs| && Rank(attrs, i) == r
  {
    var s := Explicit(attrs);
    if r < |s| {
      NthElement(s, r);
      var x :| x in s && Below(s, x) == r;
      var i :| 0 <= i < |attrs| && attrs[i].Some? && attrs[i].value == x;
      assert Rank(attrs, i) == r;
    } else if r < GroupCount(attrs) {
      var i := Holding(attrs, |attrs|, None)[r - |s|];
      HoldingPrefix(attrs, |attrs|, i, None);
      HoldingInjective(attrs, |attrs|, r - |s|, |Holding(attrs, i, None)|);
      assert Rank(attrs, i) == r;
    }
    forall i | 0 <= i < |attrs| ensures Rank(attrs, i) < GroupCount(attrs) {
      if attrs[i].None? { HoldingPrefix(attrs, |attrs|, i, None); } else { BelowSize(s, attrs[i].value); }
    }
  }

  lemma HoldingInjective(attrs: seq<Option<nat>>, n: nat, a: nat, b: nat)
    requires n <= |attrs| && a < |Holding(attrs, n, None)| && b < |Holding(attrs, n, None)|
    requires Holding(attrs, n, None)[a] == Holding(attrs, n, None)[b]
    ensures a == b
  {
  }

  // ---------- numbering again ----------

  /** All fragments are numbered, with the indices below `n` and all of them. */
  ghost predicate Numbered(attrs: seq<Option<nat>>, n: nat) {
    && (forall i :: 0 <= i < |attrs| ==> attrs[i].Some?)
    && (forall x: nat :: x in Explicit(attrs) <==> x < n)
  }

  lemma BelowRange(s: set<nat>, n: nat, x: nat)
    requires (forall v: nat :: v in s <==> v < n) && x <= n
    ensures Below(s, x) == x
  {
    if x > 0 {
      BelowRange(s, n, x - 1);
      BelowStep(s, x - 1);
    } else {
      assert Lower(s, 0) == {};
    }
  }

  /** Numbering numbered fragments changes nothing. In particular numbering is idempotent, and the visible fragments of a slide,
      when they are its leading groups, keep their indices though they are numbered alone. */
  lemma NumberedStays(attrs: seq<Option<nat>>, n: nat, i: nat)
    requires Numbered(attrs, n) && i < |attrs|
    ensures Rank(attrs, i) == attrs[i].value
  {
    assert attrs[i].value in Explicit(attrs);
    BelowRange(Explicit(attrs), n, attrs[i].value);
  }

  lemma NoneHolds(attrs: seq<Option<nat>>, n: nat, key: Option<nat>)
    requires n <= |attrs| && forall i :: 0 <= i < n ==> attrs[i] != key
    ensures Holding(attrs, n, key) == []
  {
  }

  lemma NumberedCount(attrs: seq<Option<nat>>, n: nat)
    requires Numbered(attrs, n)
    ensures GroupCount(attrs) == n
  {
    var s := Explicit(attrs);
    BelowRange(s, n, n);
    assert Lower(s, n) == s;
    NoneHolds(attrs, |attrs|, None);
  }

  function Ranks(attrs: seq<Option<nat>>): (r: seq<Option<nat>>) {
    seq(|attrs|, i requires 0 <= i < |attrs| => Some(Rank(attrs, i)))
  }

  lemma RanksNumbered(attrs: seq<Option<nat>>)
    ensures Numbered(Ranks(attrs), GroupCount(attrs)) && Ranks(Ranks(attrs)) == Ranks(attrs)
  {
    var r := Ranks(attrs);
    forall x: nat ensures x in Explicit(r) <==> x < GroupCount(attrs) {
      RanksContiguous(attrs, x);
      if x < GroupCount(attrs) {
        var i :| 0 <= i < |attrs| && Rank(attrs, i) == x;
        assert r[i] == Some(x);
      }
    }
    assert Numbered(r, GroupCount(attrs));
    forall i | 0 <= i < |r| ensures Rank(r, i) == r[i].value { NumberedStays(r, GroupCount(attrs), i); }
  }

  // ---------- the code ----------

  /** The groups of the first `i` fragments. */
  ghost predicate Grouped(attrs: seq<Option<nat>>, i: nat, ordered: map<nat, seq<nat>>)
    requires i <= |attrs|
  {
    ordered.Keys == Explicit(attrs[..i]) && forall x :: x in ordered ==> ordered[x] == Holding(attrs, i, Some(x))
  }

  lemma GroupStep(attrs: seq<Option<nat>>, i: nat, x: nat, was: seq<nat>, now: seq<nat>)
    requires i < |attrs| && was == Holding(attrs, i, Some(x)) && now == if attrs[i] == Some(x) then was + [i] else was
    ensures now == Holding(attrs, i + 1, Some(x))
  {
  }

  lemma GroupedMore(attrs: seq<Option<nat>>, i: nat, ordered: map<nat, seq<nat>>, more: map<nat, seq<nat>>)
    requires i < |attrs| && Grouped(attrs, i, ordered)
    requires match attrs[i]
      case Some(x) => more == ordered[x := (if x in ordered then ordered[x] else []) + [i]]
      case None => more == ordered
    ensures Grouped(attrs, i + 1, more)
  {
    ExplicitStep(attrs, i);
    forall x | x in more ensures more[x] == Holding(attrs, i + 1, Some(x)) {
      if x !in ordered { HoldingNone(attrs, i, Some(x)); }
      GroupStep(attrs, i, x, if x in ordered then ordered[x] else [], more[x]);
    }
  }

  /** The first loop: fragments with an index go to its group, the others aside. */
  method CollectGroups(attrs: seq<Option<nat>>) returns (ordered: map<nat, seq<nat>>, unordered: seq<nat>, length: nat)
    ensures forall x :: x in ordered <==> x in Explicit(attrs)
    ensures forall x :: x in ordered ==> x < length && ordered[x] == Holding(attrs, |attrs|, Some(x))
    ensures unordered == Holding(attrs, |attrs|, None)
  {
    ordered, unordered, length := map[], [], 0;
    for i := 0 to |attrs|
      invariant Grouped(attrs, i, ordered) && unordered == Holding(attrs, i, None)
      invariant forall x :: x in ordered ==> x < length
    {
      ghost var before := ordered;
      if attrs[i].Some? {
        var x: nat := attrs[i].value;
        if x !in ordered { ordered := ordered[x := []]; }
        ordered := ordered[x := ordered[x] + [i]];
        if x >= length { length := x + 1; }
      } else {
        unordered := unordered + [i];
      }
      GroupedMore(attrs, i, before, ordered);
    }
    assert attrs[..|attrs|] == attrs;
  }

  /** `sortFragments`: the new index of each fragment, and the fragments in the order in which they are revealed. */
  method SortFragments(attrs: seq<Option<nat>>) returns (ranks: seq<nat>, sorted: seq<nat>)
    ensures |ranks| == |attrs| && forall i :: 0 <= i < |attrs| ==> ranks[i] == Rank(attrs, i)
    ensures forall i :: 0 <= i < |attrs| ==> i in sorted
    ensures forall a :: 0 <= a < |sorted| ==> sorted[a] < |attrs|
    ensures forall a, b :: 0 <= a < b < |sorted| ==> Precedes(attrs, sorted[a], sorted[b])
  {
    var ordered, unordered, length := CollectGroups(attrs);
    ranks, sorted := seq(|attrs|, _ => 0), [];
    var index := 0;
    ghost var keys := Explicit(attrs);
    assert Lower(keys, 0) == {};
    for x := 0 to length
      invariant index == Below(keys, x)
      invariant Assigned(attrs, ranks, sorted, x, 0)
    {
      BelowStep(keys, x);
      if x in ordered {
        ranks, sorted := AppendGroup(attrs, ranks, sorted, ordered[x], index, x);
        index := index + 1;
      } else {
        NoGroup(attrs, ranks, sorted, x);
      }
    }
    assert Lower(keys, length) == keys;
    for n := 0 to |unordered|
      invariant index == |keys| + n
      invariant Assigned(attrs, ranks, sorted, length, n)
    {
      UnnumberedAppended(attrs, ranks, sorted, index, length, n);
      ranks, sorted := ranks[unordered[n] := index], sorted + [unordered[n]];
      index := index + 1;
    }
    AllAssigned(attrs, ranks, sorted, length);
  }

  lemma NoGroup(attrs: seq<Option<nat>>, ranks: seq<nat>, sorted: seq<nat>, x: nat)
    requires Assigned(attrs, ranks, sorted, x, 0) && x !in Explicit(attrs)
    ensures Assigned(attrs, ranks, sorted, x + 1, 0)
  {
    forall a | 0 <= a < |sorted| ensures Listed(attrs, ranks, sorted[a], x + 1, 0) {
      assert Listed(attrs, ranks, sorted[a], x, 0);
    }
    forall i | 0 <= i < |attrs| && attrs[i].Some? && attrs[i].value < x + 1 ensures i in sorted {
      assert attrs[i].value in Explicit(attrs);
    }
  }

  lemma UnnumberedAppended(attrs: seq<Option<nat>>, ranks: seq<nat>, sorted: seq<nat>, index: nat, x: nat, n: nat)
    requires Assigned(attrs, ranks, sorted, x, n) && n < |Holding(attrs, |attrs|, None)|
    requires index == |Explicit(attrs)| + n && forall v :: v in Explicit(attrs) ==> v < x
    ensures var i := Holding(attrs, |attrs|, None)[n]; Assigned(attrs, ranks[i := index], sorted + [i], x, n + 1)
  {
    var i := Holding(attrs, |attrs|, None)[n];
    HoldingPrefix(attrs, |attrs|, i, None);
    HoldingInjective(attrs, |attrs|, n, |Holding(attrs, i, None)|);
    var sorted' := sorted + [i];
    forall a | 0 <= a < |sorted'| ensures Listed(attrs, ranks[i := index], sorted'[a], x, n + 1) {
      if a < |sorted| { assert Listed(attrs, ranks, sorted[a], x, n); }
    }
    UnnumberedOrder(attrs, ranks, sorted, i, x, n);
    forall a | 0 <= a < n + 1 ensures Holding(attrs, |attrs|, None)[a] in sorted' {
      if a < n { assert Holding(attrs, |attrs|, None)[a] in sorted; }
    }
  }

  lemma UnnumberedOrder(attrs: seq<Option<nat>>, ranks: seq<nat>, sorted: seq<nat>, i: nat, x: nat, n: nat)
    requires AllListed(attrs, ranks, sorted, x, n) && InOrder(attrs, sorted)
    requires i < |attrs| && attrs[i] == None && |Holding(attrs, i, None)| == n
    ensures InOrder(attrs, sorted + [i])
  {
    var sorted' := sorted + [i];
    forall a, b | 0 <= a < b < |sorted'| ensures KeyPrecedes(attrs, sorted'[a], sorted'[b]) {
      if b < |sorted| {
        assert KeyPrecedes(attrs, sorted[a], sorted[b]);
      } else {
        assert Listed(attrs, ranks, sorted[a], x, n);
        if attrs[sorted[a]].None? && i < sorted[a] { HoldingPrefix(attrs, sorted[a], i, None); }
      }
    }
  }

  lemma AllAssigned(attrs: seq<Option<nat>>, ranks: seq<nat>, sorted: seq<nat>, x: nat)
    requires Assigned(attrs, ranks, sorted, x, |Holding(attrs, |attrs|, None)|) && forall v :: v in Explicit(attrs) ==> v < x
    ensures forall i :: 0 <= i < |attrs| ==> ranks[i] == Rank(attrs, i) && i in sorted
    ensures forall a :: 0 <= a < |sorted| ==> sorted[a] < |attrs|
    ensures forall a, b :: 0 <= a < b < |sorted| ==> Precedes(attrs, sorted[a], sorted[b])
  {
    var rest := Holding(attrs, |attrs|, None);
    forall i | 0 <= i < |attrs| ensures ranks[i] == Rank(attrs, i) && i in sorted {
      if attrs[i].Some? { assert attrs[i].value in Explicit(attrs); } else { assert i in rest; }
      var a :| 0 <= a < |sorted| && sorted[a] == i;
      assert Listed(attrs, ranks, sorted[a], x, |rest|);
    }
    forall a | 0 <= a < |sorted| ensures sorted[a] < |attrs| { assert Listed(attrs, ranks, sorted[a], x, |rest|); }
    forall a, b | 0 <= a < b < |sorted| ensures Precedes(attrs, sorted[a], sorted[b]) {
      assert KeyPrecedes(attrs, sorted[a], sorted[b]);
      if sorted[a] < sorted[b] { RankOrder(attrs, sorted[a], sorted[b]); } else { RankOrder(attrs, sorted[b], sorted[a]); }
    }
  }

  lemma ExplicitStep(attrs: seq<Option<nat>>, i: nat)
    requires i < |attrs|
    ensures Explicit(attrs[..i + 1]) == Explicit(attrs[..i]) + if attrs[i].Some? then {attrs[i].value} else {}
  {
    var a, b := attrs[..i], attrs[..i + 1];
    assert b == a + [attrs[i]];
    forall x | x in Explicit(a) ensures x in Explicit(b) {
      var j :| 0 <= j < |a| && a[j].Some? && a[j].value == x;
      assert b[j] == Some(x);
    }
    if attrs[i].Some? { assert b[i] == attrs[i]; }
  }

  lemma HoldingNone(attrs: seq<Option<nat>>, n: nat, key: Option<nat>)
    requires n <= |attrs| && key.Some? && key.value !in Explicit(attrs[..n])
    ensures Holding(attrs, n, key) == []
  {
    forall j | 0 <= j < n ensures attrs[j] != key { assert attrs[..n][j] == attrs[j]; }
    NoneHolds(attrs, n, key);
  }

  /** The groups of the explicit indices below `x` have been numbered and listed, and the first `n` fragments without an index. */
  ghost predicate Assigned(attrs: seq<Option<nat>>, ranks: seq<nat>, sorted: seq<nat>, x: nat, n: nat) {
    |ranks| == |attrs| && Covers(attrs, sorted, x, n) && AllListed(attrs, ranks, sorted, x, n) && InOrder(attrs, sorted)
  }

  ghost predicate Covers(attrs: seq<Option<nat>>, sorted: seq<nat>, x: nat, n: nat) {
    && n <= |Holding(attrs, |attrs|, None)|
    && (forall i :: 0 <= i < |attrs| && attrs[i].Some? && attrs[i].value < x ==> i in sorted)
    && (forall a :: 0 <= a < n ==> Holding(attrs, |attrs|, None)[a] in sorted)
  }

  ghost predicate AllListed(attrs: seq<Option<nat>>, ranks: seq<nat>, sorted: seq<nat>, x: nat, n: nat) {
    forall a :: 0 <= a < |sorted| ==> Listed(attrs, ranks, sorted[a], x, n)
  }

  ghost predicate InOrder(attrs: seq<Option<nat>>, sorted: seq<nat>) {
    forall a, b :: 0 <= a < b < |sorted| ==> KeyPrecedes(attrs, sorted[a], sorted[b])
  }

  ghost predicate Listed(attrs: seq<Option<nat>>, ranks: seq<nat>, i: nat, x: nat, n: nat)
  {
    && i < |attrs| == |ranks| && ranks[i] == Rank(attrs, i)
    && (if attrs[i].Some? then attrs[i].value < x else |Holding(attrs, i, None)| < n)
  }

  /** One group joins the result under the next index. */
  method AppendGroup(attrs: seq<Option<nat>>, ranks0: seq<nat>, sorted0: seq<nat>, group: seq<nat>, index: nat, x: nat)
    returns (ranks: seq<nat>, sorted: seq<nat>)
    requires Assigned(attrs, ranks0, sorted0, x, 0)
    requires group == Holding(attrs, |attrs|, Some(x)) && index == Below(Explicit(attrs), x)
    ensures Assigned(attrs, ranks, sorted, x + 1, 0)
  {
    ranks, sorted := ranks0, sorted0;
    for j := 0 to |group|
      invariant |ranks| == |attrs|
      invariant |sorted| == |sorted0| + j
      invariant forall a :: 0 <= a < |sorted0| ==> sorted[a] == sorted0[a]
      invariant forall a :: 0 <= a < j ==> sorted[|sorted0| + a] == group[a]
      invariant forall i :: 0 <= i < |attrs| ==> ranks[i] == if i in group[..j] then index else ranks0[i]
    {
      ranks, sorted := ranks[group[j] := index], sorted + [group[j]];
    }
    assert group[..|group|] == group;
    GroupAppended(attrs, ranks0, sorted0, group, index, x, ranks, sorted);
  }

  lemma GroupAppended(attrs: seq<Option<nat>>, ranks0: seq<nat>, sorted0: seq<nat>, group: seq<nat>, index: nat, x: nat,
                      ranks: seq<nat>, sorted: seq<nat>)
    requires Assigned(attrs, ranks0, sorted0, x, 0)
    requires group == Holding(attrs, |attrs|, Some(x)) && index == Below(Explicit(attrs), x)
    requires |ranks| == |attrs| && |sorted| == |sorted0| + |group|
    requires forall a :: 0 <= a < |sorted0| ==> sorted[a] == sorted0[a]
    requires forall a :: 0 <= a < |group| ==> sorted[|sorted0| + a] == group[a]
    requires forall i :: 0 <= i < |attrs| ==> ranks[i] == if i in group then index else ranks0[i]
    ensures Assigned(attrs, ranks, sorted, x + 1, 0)
  {
    GroupListed(attrs, ranks0, sorted0, group, index, x, ranks, sorted);
    forall i | 0 <= i < |attrs| && attrs[i].Some? && attrs[i].value < x + 1 ensures i in sorted {
      GroupCovered(attrs, sorted0, group, x, sorted, i);
    }
    forall a, b | 0 <= a < b < |sorted| ensures KeyPrecedes(attrs, sorted[a], sorted[b]) {
      if b < |sorted0| { assert KeyPrecedes(attrs, sorted0[a], sorted0[b]); }
      else { GroupOrder(attrs, ranks0, sorted0, group, x, sorted, a, b); }
    }
  }

  lemma GroupListed(attrs: seq<Option<nat>>, ranks0: seq<nat>, sorted0: seq<nat>, group: seq<nat>, index: nat, x: nat,
                    ranks: seq<nat>, sorted: seq<nat>)
    requires AllListed(attrs, ranks0, sorted0, x, 0) && |ranks0| == |ranks| == |attrs|
    requires group == Holding(attrs, |attrs|, Some(x)) && index == Below(Explicit(attrs), x)
    requires |sorted| == |sorted0| + |group|
    requires forall a :: 0 <= a < |sorted0| ==> sorted[a] == sorted0[a]
    requires forall a :: 0 <= a < |group| ==> sorted[|sorted0| + a] == group[a]
    requires forall i :: 0 <= i < |attrs| ==> ranks[i] == if i in group then index else ranks0[i]
    ensures AllListed(attrs, ranks, sorted, x + 1, 0)
  {
    forall a | 0 <= a < |sorted| ensures Listed(attrs, ranks, sorted[a], x + 1, 0) {
      if a < |sorted0| { assert Listed(attrs, ranks0, sorted0[a], x, 0); } else { assert sorted[a] == group[a - |sorted0|]; }
    }
  }

  lemma GroupCovered(attrs: seq<Option<nat>>, sorted0: seq<nat>, group: seq<nat>, x: nat, sorted: seq<nat>, i: nat)
    requires i < |attrs| && attrs[i].Some? && attrs[i].value < x + 1 && |sorted| == |sorted0| + |group|
    requires if attrs[i].value == x then i in group else i in sorted0
    requires forall a :: 0 <= a < |sorted0| ==> sorted[a] == sorted0[a]
    requires forall a :: 0 <= a < |group| ==> sorted[|sorted0| + a] == group[a]
    ensures i in sorted
  {
    if attrs[i].value == x {
      var a :| 0 <= a < |group| && group[a] == i;
      assert sorted[|sorted0| + a] == i;
    } else {
      var a :| 0 <= a < |sorted0| && sorted0[a] == i;
      assert sorted[a] == i;
    }
  }

  lemma GroupOrder(attrs: seq<Option<nat>>, ranks0: seq<nat>, sorted0: seq<nat>, group: seq<nat>, x: nat, sorted: seq<nat>, a: nat, b: nat)
    requires Assigned(attrs, ranks0, sorted0, x, 0) && group == Holding(attrs, |attrs|, Some(x))
    requires |sorted| == |sorted0| + |group|
    requires a < b < |sorted| && |sorted0| <= b
    requires forall c :: 0 <= c < |sorted0| ==> sorted[c] == sorted0[c]
    requires forall c :: 0 <= c < |group| ==> sorted[|sorted0| + c] == group[c]
    ensures KeyPrecedes(attrs, sorted[a], sorted[b])
  {
    assert sorted[b] == group[b - |sorted0|] && attrs[sorted[b]] == Some(x);
    if a < |sorted0| {
      assert Listed(attrs, ranks0, sorted0[a], x, 0);
    } else {
      assert sorted[a] == group[a - |sorted0|] && attrs[sorted[a]] == Some(x);
    }
  }
}
