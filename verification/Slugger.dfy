/** marked's `Slugger`: heading ids made unique by numbering repeats. Headings arrive lower-cased, trimmed and stripped. */
module Slugger {
  import opened Wrappers
  import opened Decimal

  /** The one name that an assignment does not make an own property of `{}`. */
  const PROTO := "__proto__"

  /** `n + "-" + k` */
  function Numbered(n: string, k: nat): (name: string)
    ensures n < name && name != PROTO
  {
    var name := n + "-" + Show(k);
    assert name[|name| - 1] == Show(k)[|Show(k)| - 1] && Show(k)[|Show(k)| - 1] in Show(k);
    name
  }

  lemma NumberedInjective(n: string, j: nat, k: nat)
    ensures Numbered(n, j) == Numbered(n, k) ==> j == k
  {
    if Numbered(n, j) == Numbered(n, k) {
      assert Show(j) == Numbered(n, j)[|n| + 1..] && Show(k) == Numbered(n, k)[|n| + 1..];
      ShowInjective(j, k);
    }
  }

  /** The taken names that the search for a free one may still meet. */
  ghost function Pending(seen: map<string, nat>, n: string): set<string>
    requires n in seen
  {
    set name | name in seen.Keys && exists k: nat :: seen[n] < k && name == Numbered(n, k)
  }

  function Count(seen: map<string, nat>, n: string): map<string, nat>
    requires n in seen
  {
    seen[n := seen[n] + 1]
  }

  lemma PendingShrinks(seen: map<string, nat>, n: string)
    requires n in seen && Numbered(n, seen[n] + 1) in seen
    ensures Pending(Count(seen, n), n) < Pending(seen, n)
  {
    var name := Numbered(n, seen[n] + 1);
    assert name in Pending(seen, n);
    if name in Pending(Count(seen, n), n) {
      var k: nat :| seen[n] + 1 < k && name == Numbered(n, k);
      NumberedInjective(n, seen[n] + 1, k);
    }
  }

  /** The loop that counts up until a name is free. */
  function Search(seen: map<string, nat>, n: string): (r: (string, map<string, nat>))
    requires n in seen
    ensures n in r.1 && r.1 == seen[n := r.1[n]] && r.1[n] > seen[n]
    ensures r.0 == Numbered(n, r.1[n]) && r.0 !in seen
    ensures forall k: nat :: seen[n] < k < r.1[n] ==> Numbered(n, k) in seen
    decreases Pending(seen, n)
  {
    var counted := Count(seen, n);
    var name := Numbered(n, counted[n]);
    if name in counted then
      PendingShrinks(seen, n);
      Search(counted, n)
    else (name, counted)
  }

  function Own(seen: map<string, nat>, t: string): map<string, nat> {
    if t == PROTO then seen else seen[t := 0]
  }

  /** `slug`: the id and the counters after it. */
  function SlugOf(seen: map<string, nat>, t: string): (r: (string, map<string, nat>)) {
    if t in seen then
      var (name, counted) := Search(seen, t);
      (name, Own(counted, name))
    else (t, Own(seen, t))
  }

  function Slugs(seen: map<string, nat>, headings: seq<string>): (r: seq<string>)
    ensures |r| == |headings|
    decreases |headings|
  {
    if headings == [] then [] else
      var (name, after) := SlugOf(seen, headings[0]);
      [name] + Slugs(after, headings[1..])
  }

  // ---------- what the ids are ----------

  /** Every name a counter has passed is taken. */
  ghost predicate Dense(seen: map<string, nat>) {
    PROTO !in seen && forall n, k: nat :: n in seen && 1 <= k <= seen[n] ==> Numbered(n, k) in seen
  }

  /** The heading itself if it is free, else its variant with the least number, from 1 on, that is free. */
  ghost predicate LeastFree(taken: set<string>, t: string, name: string) {
    if t !in taken then name == t
    else exists k: nat :: k >= 1 && name == Numbered(t, k) && name !in taken && forall j: nat :: 1 <= j < k ==> Numbered(t, j) in taken
  }

  /** An id depends on the names taken only, not on the counters: it is the heading itself, or the least-numbered free name. */
  lemma SlugIsLeastFree(seen: map<string, nat>, t: string)
    requires Dense(seen)
    ensures var r := SlugOf(seen, t);
      Dense(r.1) && LeastFree(seen.Keys, t, r.0) && r.1.Keys == seen.Keys + ({r.0} - {PROTO}) && r.0 !in seen
    ensures SlugOf(seen, t).0 == PROTO <==> t == PROTO
  {
    var (name, after) := SlugOf(seen, t);
    if t in seen {
      var counted := Search(seen, t).1;
      assert name == Numbered(t, counted[t]) && counted[t] >= 1;
      forall j: nat | 1 <= j < counted[t] ensures Numbered(t, j) in seen {
        if j > seen[t] { assert Numbered(t, j) in seen; }
      }
      forall n, k: nat | n in after && 1 <= k <= after[n] ensures Numbered(n, k) in after {
        assert n in seen;
        if n == t && k < counted[t] { assert Numbered(t, k) in seen; }
      }
    }
  }

  /** The id of a repeated heading is the heading, a dash, and a numeral that is read back as the least number not taken. */
  lemma RepeatedId(seen: map<string, nat>, t: string) returns (numeral: string, k: nat)
    requires Dense(seen) && t in seen
    ensures SlugOf(seen, t).0 == t + "-" + numeral && ParseInt(numeral) == Some(k) && k >= 1
    ensures t + "-" + numeral !in seen && forall j: nat :: 1 <= j < k ==> t + "-" + ShowInt(j) in seen
  {
    SlugIsLeastFree(seen, t);
    k :| k >= 1 && SlugOf(seen, t).0 == Numbered(t, k) && forall j: nat :: 1 <= j < k ==> Numbered(t, j) in seen.Keys;
    numeral := Show(k);
    ParseShow(k);
    forall j: nat | 1 <= j < k ensures t + "-" + ShowInt(j) in seen { assert Numbered(t, j) in seen.Keys; }
  }

  predicate Distinct(names: seq<string>) {
    forall i, j :: 0 <= i < j < |names| ==> names[i] != names[j]
  }

  predicate AtMostOneProto(headings: seq<string>) {
    forall i, j :: 0 <= i < j < |headings| ==> headings[i] != PROTO || headings[j] != PROTO
  }

  lemma {:induction false} SlugsAreFree(seen: map<string, nat>, headings: seq<string>)
    requires Dense(seen)
    ensures var ids := Slugs(seen, headings);
      forall i :: 0 <= i < |ids| ==> ids[i] !in seen && (ids[i] == PROTO <==> headings[i] == PROTO)
    decreases |headings|
  {
    if headings != [] {
      SlugIsLeastFree(seen, headings[0]);
      SlugsAreFree(SlugOf(seen, headings[0]).1, headings[1..]);
    }
  }

  /** The ids of one slugger are pairwise distinct, unless two headings come out as `__proto__`. */
  lemma {:induction false} SlugsDistinct(seen: map<string, nat>, headings: seq<string>)
    requires Dense(seen)
    ensures Distinct(Slugs(seen, headings)) <==> AtMostOneProto(headings)
    decreases |headings|
  {
    var ids := Slugs(seen, headings);
    SlugsAreFree(seen, headings);
    if AtMostOneProto(headings) && headings != [] {
      var (name, after) := SlugOf(seen, headings[0]);
      SlugIsLeastFree(seen, headings[0]);
      SlugsAreFree(after, headings[1..]);
      SlugsDistinct(after, headings[1..]);
      forall j | 0 < j < |ids| ensures ids[j] != name {
        assert ids[j] == Slugs(after, headings[1..])[j - 1];
      }
      forall i, j | 0 <= i < j < |ids| ensures ids[i] != ids[j] {
        if i > 0 { assert ids[i] == ids[1..][i - 1] && ids[j] == ids[1..][j - 1]; }
      }
    }
  }

  /** Two headings that come out as `__proto__` share their id. */
  lemma SharedId()
    ensures Slugs(map[], [PROTO, PROTO]) == [PROTO, PROTO] && Dense(map[]) && !Distinct(Slugs(map[], [PROTO, PROTO]))
  {
    assert [PROTO, PROTO][1..] == [PROTO];
  }

  class Slugger {
    var seen: map<string, nat>

    constructor ()
      ensures seen == map[] && Dense(seen)
    {
      seen := map[];
    }

    /** `slug`, behind the normalisation of the heading */
    method Slug(heading: string) returns (t: string)
      requires Dense(seen)
      modifies this
      ensures (t, seen) == SlugOf(old(seen), heading)
      ensures Dense(seen) && LeastFree(old(seen).Keys, heading, t)
      ensures seen.Keys == old(seen).Keys + ({t} - {PROTO}) && t !in old(seen)
    {
      SlugIsLeastFree(seen, heading);
      t := heading;
      if t in seen {
        var n := t;
        ghost var before := seen;
        while true
          invariant n in seen && Search(seen, n) == Search(before, n)
          decreases Pending(seen, n)
        {
          ghost var counts := seen;
          seen, t := seen[n := seen[n] + 1], Numbered(n, seen[n] + 1);
          if t !in seen { break; }
          PendingShrinks(counts, n);
        }
        assert (t, seen) == Search(before, n);
      }
      if t != PROTO { seen := seen[t := 0]; }
    }
  }
}
