/** The markdown plugin's `slidify`: text between separators becomes slides, side by side or stacked. */
module Slidify {
  import opened Wrappers

  /** A match of the separator expression: where, how long, and whether the horizontal separator alone matches it too. */
  datatype Match = Match(index: nat, length: nat, horizontal: bool)

  /** `separatorRegex.exec`, starting at an offset */
  type Finder = nat -> Option<Match>

  /** Matches lie in the text, not before the offset, and are not empty. */
  ghost predicate Proper(markdown: string, exec: Finder) {
    forall from: nat :: from <= |markdown| && exec(from).Some? ==>
      var m := exec(from).value; from <= m.index && m.length > 0 && m.index + m.length <= |markdown|
  }

  function End(m: Match): nat {
    m.index + m.length
  }

  /** The matches from an offset on. */
  function Matches(markdown: string, exec: Finder, from: nat): (ms: seq<Match>)
    requires Proper(markdown, exec) && from <= |markdown|
    decreases |markdown| - from
  {
    match exec(from)
    case None => []
    case Some(m) => [m] + Matches(markdown, exec, End(m))
  }

  /** Matches that follow one another in the text. */
  predicate InOrder(markdown: string, ms: seq<Match>, from: nat) {
    if ms == [] then from <= |markdown|
    else from <= ms[0].index && End(ms[0]) <= |markdown| && InOrder(markdown, ms[1..], End(ms[0]))
  }

  lemma MatchesInOrder(markdown: string, exec: Finder, from: nat)
    requires Proper(markdown, exec) && from <= |markdown|
    ensures InOrder(markdown, Matches(markdown, exec, from), from)
    decreases |markdown| - from
  {
    match exec(from)
    case None =>
    case Some(m) => MatchesInOrder(markdown, exec, End(m));
  }

  /** The end of the last of the first `k` matches, where the search for the next one starts. */
  function SearchFrom(ms: seq<Match>, from: nat, k: nat): nat
    requires k <= |ms|
  {
    if k == 0 then from else ms[k - 1].index + ms[k - 1].length
  }

  /** `ms` are all the matches: each is found from the end of the one before, and behind the last there is none. */
  ghost predicate Complete(exec: Finder, ms: seq<Match>, from: nat) {
    && (forall k :: 0 <= k < |ms| ==> exec(SearchFrom(ms, from, k)) == Some(ms[k]))
    && exec(SearchFrom(ms, from, |ms|)) == None
  }

  lemma {:induction false} MatchesComplete(markdown: string, exec: Finder, from: nat)
    requires Proper(markdown, exec) && from <= |markdown|
    ensures Complete(exec, Matches(markdown, exec, from), from)
    decreases |markdown| - from
  {
    var ms := Matches(markdown, exec, from);
    if ms != [] {
      MatchesComplete(markdown, exec, End(ms[0]));
      forall k | 0 <= k <= |ms|
        ensures if k < |ms| then exec(SearchFrom(ms, from, k)) == Some(ms[k]) else exec(SearchFrom(ms, from, k)) == None
      {
        if k > 0 { assert SearchFrom(ms, from, k) == SearchFrom(ms[1..], End(ms[0]), k - 1); }
      }
    }
  }

  // ---------- the slides ----------

  /** An entry of `sectionStack`: one slide, or slides stacked vertically. */
  datatype Section = Single(content: string) | Stack(children: seq<string>)

  function ChildrenOf(s: Section): seq<string> {
    match s
    case Single(content) => [content]
    case Stack(children) => children
  }

  /** The slides in document order. */
  function Slides(sections: seq<Section>): seq<string> {
    if sections == [] then [] else Slides(sections[..|sections| - 1]) + ChildrenOf(sections[|sections| - 1])
  }

  datatype Place = Place(h: nat, v: nat)

  function Column(h: nat, height: nat): (c: seq<Place>)
    ensures |c| == height
  {
    seq(height, v requires v >= 0 => Place(h, v))
  }

  /** Where each of these slides stands. */
  function Places(sections: seq<Section>): (r: seq<Place>)
    ensures |r| == |Slides(sections)|
  {
    if sections == [] then [] else
      var n := |sections| - 1;
      Places(sections[..n]) + Column(n, |ChildrenOf(sections[n])|)
  }

  /** Where the slide after the first `k` separators belongs: a horizontal separator starts a new column, a vertical one
      moves down in the same column. */
  function PlaceAfter(ms: seq<Match>, k: nat): (p: Place)
    requires k <= |ms|
  {
    if k == 0 then Place(0, 0)
    else if ms[k - 1].horizontal then Place(PlaceAfter(ms, k - 1).h + 1, 0)
    else PlaceAfter(ms, k - 1).(v := PlaceAfter(ms, k - 1).v + 1)
  }

  /** The contents before, between and behind the matches. */
  function Contents(markdown: string, ms: seq<Match>, from: nat): (cs: seq<string>)
    requires InOrder(markdown, ms, from)
    ensures |cs| == |ms| + 1
  {
    if ms == [] then [markdown[from..]]
    else [markdown[from..ms[0].index]] + Contents(markdown, ms[1..], End(ms[0]))
  }

  /** Each content is the text from the end of one match to the beginning of the next, or of the text to its end. */
  lemma {:induction false} ContentAt(markdown: string, ms: seq<Match>, from: nat, k: nat)
    requires InOrder(markdown, ms, from) && k <= |ms|
    ensures SearchFrom(ms, from, k) <= (if k < |ms| then ms[k].index else |markdown|) <= |markdown|
    ensures Contents(markdown, ms, from)[k] == markdown[SearchFrom(ms, from, k)..if k < |ms| then ms[k].index else |markdown|]
    decreases k
  {
    if k > 0 {
      ContentAt(markdown, ms[1..], End(ms[0]), k - 1);
      assert SearchFrom(ms[1..], End(ms[0]), k - 1) == SearchFrom(ms, from, k);
    }
  }

  function Separators(markdown: string, ms: seq<Match>, from: nat): (ss: seq<string>)
    requires InOrder(markdown, ms, from)
    ensures |ss| == |ms|
  {
    if ms == [] then [] else [markdown[ms[0].index..End(ms[0])]] + Separators(markdown, ms[1..], End(ms[0]))
  }

  function Interleave(contents: seq<string>, separators: seq<string>): string
    requires |contents| == |separators| + 1
  {
    if separators == [] then contents[0]
    else contents[0] + separators[0] + Interleave(contents[1..], separators[1..])
  }

  /** Contents and separators, taken in turn, are the text again. */
  lemma {:induction false} InterleaveRestores(markdown: string, ms: seq<Match>, from: nat)
    requires InOrder(markdown, ms, from)
    ensures from <= |markdown| && Interleave(Contents(markdown, ms, from), Separators(markdown, ms, from)) == markdown[from..]
  {
    if ms != [] {
      var i, e := ms[0].index, End(ms[0]);
      InterleaveRestores(markdown, ms[1..], e);
      assert markdown[from..] == markdown[from..i] + markdown[i..e] + markdown[e..];
    }
  }

  // ---------- adding a slide ----------

  /** If the separator before, `was`, is vertical, the last entry is a stack to which the next content belongs. */
  predicate Open(sections: seq<Section>, was: bool) {
    !was ==> sections != [] && sections[|sections| - 1].Stack? && sections[|sections| - 1].children != []
  }

  /** A content is added between the separators `was` and `hor`, each horizontal or not. */
  function Add(sections: seq<Section>, was: bool, hor: bool, content: string): (r: seq<Section>)
    requires Open(sections, was)
    ensures Open(r, hor)
  {
    var n := |sections| - 1;
    if was then sections + [if hor then Single(content) else Stack([content])]
    else sections[..n] + [Stack(sections[n].children + [content])]
  }

  /** Where the next slide goes. */
  function Next(sections: seq<Section>, was: bool): Place
    requires Open(sections, was)
  {
    if was then Place(|sections|, 0) else Place(|sections| - 1, |sections[|sections| - 1].children|)
  }

  lemma Snoc(sections: seq<Section>, s: Section)
    ensures Slides(sections + [s]) == Slides(sections) + ChildrenOf(s)
    ensures Places(sections + [s]) == Places(sections) + Column(|sections|, |ChildrenOf(s)|)
  {
    assert (sections + [s])[..|sections|] == sections;
  }

  lemma Grow(a: seq<string>, b: seq<string>, c: string, p: seq<Place>, h: nat)
    ensures a + (b + [c]) == (a + b) + [c]
    ensures p + Column(h, |b| + 1) == (p + Column(h, |b|)) + [Place(h, |b|)]
  {
    assert Column(h, |b| + 1) == Column(h, |b|) + [Place(h, |b|)];
  }

  /** The slide is added last, in the next place. */
  lemma AddPlaces(sections: seq<Section>, was: bool, hor: bool, content: string)
    requires Open(sections, was)
    ensures var r := Add(sections, was, hor, content);
      Slides(r) == Slides(sections) + [content] && Places(r) == Places(sections) + [Next(sections, was)]
    ensures var p := Next(sections, was);
      Next(Add(sections, was, hor, content), hor) == if hor then Place(p.h + 1, 0) else p.(v := p.v + 1)
  {
    if was {
      Snoc(sections, if hor then Single(content) else Stack([content]));
      assert Column(|sections|, 1) == [Place(|sections|, 0)];
    } else {
      var n := |sections| - 1;
      var top := sections[n];
      assert sections == sections[..n] + [top];
      Snoc(sections[..n], top);
      Snoc(sections[..n], Stack(top.children + [content]));
      Grow(Slides(sections[..n]), top.children, content, Places(sections[..n]), n);
    }
  }

  /** No stack holds a single slide, except for one that is still to be added to. */
  predicate NoLoneStack(sections: seq<Section>, was: bool) {
    forall i :: 0 <= i < |sections| && sections[i].Stack? && (was || i < |sections| - 1) ==> |sections[i].children| >= 2
  }

  lemma AddNoLone(sections: seq<Section>, was: bool, hor: bool, content: string)
    requires Open(sections, was) && NoLoneStack(sections, was)
    ensures NoLoneStack(Add(sections, was, hor, content), hor)
  {
  }

  predicate OnPath(places: seq<Place>, ms: seq<Match>) {
    |places| <= |ms| + 1 && forall i :: 0 <= i < |places| ==> places[i] == PlaceAfter(ms, i)
  }

  /** The slides so far stand where they belong, and so will the next, behind `k` separators. */
  ghost predicate Laid(sections: seq<Section>, was: bool, ms: seq<Match>, k: nat) {
    && k <= |ms| && Open(sections, was) && NoLoneStack(sections, was)
    && OnPath(Places(sections), ms) && |Places(sections)| == k && Next(sections, was) == PlaceAfter(ms, k)
  }

  lemma PathSnoc(places: seq<Place>, ms: seq<Match>)
    requires OnPath(places, ms) && |places| <= |ms|
    ensures OnPath(places + [PlaceAfter(ms, |places|)], ms)
  {
  }

  lemma LayOne(sections: seq<Section>, was: bool, ms: seq<Match>, k: nat, content: string)
    requires Laid(sections, was, ms, k) && k < |ms|
    ensures Laid(Add(sections, was, ms[k].horizontal, content), ms[k].horizontal, ms, k + 1)
  {
    PathSnoc(Places(sections), ms);
    AddPlaces(sections, was, ms[k].horizontal, content);
    AddNoLone(sections, was, ms[k].horizontal, content);
  }

  lemma LayLast(sections: seq<Section>, was: bool, ms: seq<Match>, content: string)
    requires Laid(sections, was, ms, |ms|)
    ensures var r := Add(sections, was, true, content);
      NoLoneStack(r, true) && OnPath(Places(r), ms) && |Places(r)| == |ms| + 1
  {
    PathSnoc(Places(sections), ms);
    AddPlaces(sections, was, true, content);
    AddNoLone(sections, was, true, content);
  }

  /** `k` matches have been passed, and the text up to `from` is in `slides`. */
  ghost predicate Plucked(markdown: string, ms: seq<Match>, slides: seq<string>, from: nat, k: nat) {
    && InOrder(markdown, ms, 0) && k <= |ms| && InOrder(markdown, ms[k..], from)
    && slides + Contents(markdown, ms[k..], from) == Contents(markdown, ms, 0)
  }

  lemma PluckOne(markdown: string, ms: seq<Match>, slides: seq<string>, from: nat, k: nat)
    requires Plucked(markdown, ms, slides, from, k) && k < |ms|
    ensures from <= ms[k].index <= End(ms[k]) <= |markdown|
    ensures Plucked(markdown, ms, slides + [markdown[from..ms[k].index]], End(ms[k]), k + 1)
  {
    var rest := ms[k..];
    assert rest[0] == ms[k] && rest[1..] == ms[k + 1..];
    var content := markdown[from..rest[0].index];
    var tail := Contents(markdown, rest[1..], End(rest[0]));
    assert Contents(markdown, rest, from) == [content] + tail;
    assert slides + ([content] + tail) == slides + [content] + tail;
  }

  /** The slides are the texts between the separators `ms`, in order and each in its place. */
  ghost predicate Split(markdown: string, ms: seq<Match>, sections: seq<Section>) {
    && InOrder(markdown, ms, 0) && |Slides(sections)| == |ms| + 1 && NoLoneStack(sections, true)
    && forall k :: 0 <= k <= |ms| ==> Places(sections)[k] == PlaceAfter(ms, k) && SlideAt(markdown, ms, Slides(sections)[k], k)
  }

  predicate SlideAt(markdown: string, ms: seq<Match>, slide: string, k: nat)
    requires k <= |ms|
  {
    var begin, end := if k == 0 then 0 else ms[k - 1].index + ms[k - 1].length, if k < |ms| then ms[k].index else |markdown|;
    begin <= end <= |markdown| && slide == markdown[begin..end]
  }

  lemma SplitDone(markdown: string, ms: seq<Match>, sections: seq<Section>)
    requires InOrder(markdown, ms, 0) && Slides(sections) == Contents(markdown, ms, 0) && NoLoneStack(sections, true)
    requires forall k :: 0 <= k <= |ms| ==> Places(sections)[k] == PlaceAfter(ms, k)
    ensures Split(markdown, ms, sections)
  {
    forall k | 0 <= k <= |ms| ensures SlideAt(markdown, ms, Slides(sections)[k], k) { ContentAt(markdown, ms, 0, k); }
  }

  // ---------- the loop ----------

  /** One more content is behind the loop. */
  lemma OneMore(markdown: string, ms: seq<Match>, sections: seq<Section>, was: bool, from: nat, k: nat)
    requires Laid(sections, was, ms, k) && Plucked(markdown, ms, Slides(sections), from, k) && k < |ms|
    ensures from <= ms[k].index <= End(ms[k]) <= |markdown|
    ensures var hor, r := ms[k].horizontal, Add(sections, was, ms[k].horizontal, markdown[from..ms[k].index]);
      Laid(r, hor, ms, k + 1) && Plucked(markdown, ms, Slides(r), End(ms[k]), k + 1)
  {
    PluckOne(markdown, ms, Slides(sections), from, k);
    var content := markdown[from..ms[k].index];
    LayOne(sections, was, ms, k, content);
    AddPlaces(sections, was, ms[k].horizontal, content);
  }

  /** The rest of the text is the last slide. */
  lemma LastOne(markdown: string, ms: seq<Match>, sections: seq<Section>, was: bool, from: nat)
    requires Laid(sections, was, ms, |ms|) && Plucked(markdown, ms, Slides(sections), from, |ms|)
    ensures from <= |markdown|
    ensures var r := Add(sections, was, true, markdown[from..]); Split(markdown, ms, r) && Slides(r) == Contents(markdown, ms, 0)
  {
    assert ms[|ms|..] == [];
    LayLast(sections, was, ms, markdown[from..]);
    AddPlaces(sections, was, true, markdown[from..]);
    SplitDone(markdown, ms, Add(sections, was, true, markdown[from..]));
  }

  /** The matches from `from` on are `ms` without the first `k`. */
  ghost predicate Behind(markdown: string, exec: Finder, ms: seq<Match>, from: nat, k: nat) {
    Proper(markdown, exec) && from <= |markdown| && k <= |ms| && ms[k..] == Matches(markdown, exec, from)
  }

  lemma NextMatch(markdown: string, exec: Finder, ms: seq<Match>, from: nat, k: nat)
    requires Behind(markdown, exec, ms, from, k)
    ensures match exec(from)
      case Some(m) => k < |ms| && ms[k] == m && from < End(m) && Behind(markdown, exec, ms, End(m), k + 1)
      case None => k == |ms|
  {
    if exec(from).Some? { assert ms[k..][0] == ms[k] && ms[k..][1..] == ms[k + 1..]; }
  }

  lemma NothingYet(markdown: string, ms: seq<Match>)
    requires InOrder(markdown, ms, 0)
    ensures Laid([], true, ms, 0) && Plucked(markdown, ms, Slides([]), 0, 0)
  {
    assert ms[0..] == ms;
  }

  /** One content is put on the stack. */
  method PushContent(sectionStack: seq<Section>, wasHorizontal: bool, isHorizontal: bool, content: string) returns (r: seq<Section>)
    requires Open(sectionStack, wasHorizontal)
    ensures r == Add(sectionStack, wasHorizontal, isHorizontal, content)
  {
    r := sectionStack;
    if !isHorizontal && wasHorizontal { r := r + [Stack([])]; }
    if isHorizontal && wasHorizontal {
      r := r + [Single(content)];
    } else {
      var top := r[|r| - 1];
      r := r[..|r| - 1] + [Stack(top.children + [content])];
      assert wasHorizontal ==> top.children + [content] == [content];
    }
  }

  /** The remaining slide is put on the stack. */
  method PushRest(sectionStack: seq<Section>, wasHorizontal: bool, rest: string) returns (r: seq<Section>)
    requires Open(sectionStack, wasHorizontal)
    ensures r == Add(sectionStack, wasHorizontal, true, rest)
  {
    if wasHorizontal {
      r := sectionStack + [Single(rest)];
    } else {
      var top := sectionStack[|sectionStack| - 1];
      r := sectionStack[..|sectionStack| - 1] + [Stack(top.children + [rest])];
    }
  }

  /** The loop of `slidify` over the separators. It finds them all: each from the end of the one before, until there is none.
      The slides hold the texts between them in order, each in its place. */
  method SplitSections(markdown: string, exec: Finder) returns (sectionStack: seq<Section>)
    requires Proper(markdown, exec)
    ensures var ms := Matches(markdown, exec, 0);
      Complete(exec, ms, 0) && Split(markdown, ms, sectionStack) && Slides(sectionStack) == Contents(markdown, ms, 0)
  {
    var lastIndex: nat, wasHorizontal := 0, true;
    sectionStack := [];
    ghost var ms := Matches(markdown, exec, 0);
    ghost var k: nat := 0;
    MatchesInOrder(markdown, exec, 0);
    NothingYet(markdown, ms);
    assert ms[0..] == ms;
    var matches := exec(lastIndex);
    while matches.Some?
      invariant matches == exec(lastIndex) && Behind(markdown, exec, ms, lastIndex, k)
      invariant Laid(sectionStack, wasHorizontal, ms, k) && Plucked(markdown, ms, Slides(sectionStack), lastIndex, k)
      decreases |markdown| - lastIndex
    {
      var m := matches.value;
      NextMatch(markdown, exec, ms, lastIndex, k);
      OneMore(markdown, ms, sectionStack, wasHorizontal, lastIndex, k);
      sectionStack := PushContent(sectionStack, wasHorizontal, m.horizontal, markdown[lastIndex..m.index]);
      lastIndex, wasHorizontal, k := End(m), m.horizontal, k + 1;
      matches := exec(lastIndex);
    }
    NextMatch(markdown, exec, ms, lastIndex, k);
    LastOne(markdown, ms, sectionStack, wasHorizontal, lastIndex);
    sectionStack := PushRest(sectionStack, wasHorizontal, markdown[lastIndex..]);
    MatchesComplete(markdown, exec, 0);
  }

  /** Two slides share a column exactly if all separators between them are vertical. */
  lemma {:induction false} SharedColumn(ms: seq<Match>, j: nat, k: nat)
    requires j <= k <= |ms|
    ensures PlaceAfter(ms, j).h <= PlaceAfter(ms, k).h
    ensures PlaceAfter(ms, j).h == PlaceAfter(ms, k).h <==> forall i :: j <= i < k ==> !ms[i].horizontal
  {
    if j < k { SharedColumn(ms, j, k - 1); }
  }
}
