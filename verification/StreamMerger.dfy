/** highlight.js's `mergeStreams`: the markup an author put into a code block is woven into its highlighting. */
module StreamMerger {
  import opened Wrappers
  import Html

  /** An element with its attributes, already escaped. The code gives no stop event, hence no closing tag, to an element whose
      name contains br, hr, img or input: to the void elements of these names, but also to `abbr`, for instance. They are `isVoid`. */
  datatype Node = Node(id: nat, name: string, attributes: string, isVoid: bool)

  datatype Event = Event(start: bool, offset: nat, node: Node)

  /** Output: a tag of the original or of the highlighted stream, or a stretch of the text, not yet escaped. */
  datatype Item = Tag(start: bool, node: Node, original: bool) | Text(text: string)

  // ---------- event streams ----------

  /** The elements open after some events, outermost first; None if a stop event does not close the innermost one. */
  function Opened(events: seq<Event>): (r: Option<seq<Node>>) {
    if events == [] then Some([])
    else
      var last, before := events[|events| - 1], Opened(events[..|events| - 1]);
      if before.None? then None
      else TagEffect(before.value, last.start, last.node)
  }

  function TagEffect(stack: seq<Node>, start: bool, node: Node): (r: Option<seq<Node>>) {
    if start then Some(if node.isVoid then stack else stack + [node])
    else if stack == [] || stack[|stack| - 1] != node || node.isVoid then None
    else Some(stack[..|stack| - 1])
  }

  /** A well-nested stream over a text of length `n`: what traversing a document yields. */
  ghost predicate WellNested(events: seq<Event>, n: nat) {
    && Opened(events) == Some([])
    && (forall i, j :: 0 <= i < j < |events| ==> events[i].offset <= events[j].offset)
    && (forall i :: 0 <= i < |events| ==> events[i].offset <= n)
  }

  /** How many leading events have happened once the character at `p` is reached. */
  function UpTo(events: seq<Event>, p: nat): (n: nat)
    ensures n <= |events|
    ensures forall i :: 0 <= i < n ==> events[i].offset <= p
    ensures n < |events| ==> events[n].offset > p
  {
    if events == [] || events[0].offset > p then 0 else 1 + UpTo(events[1..], p)
  }

  /** The elements a stream puts around the character at `p`. */
  function Around(events: seq<Event>, p: nat): (r: seq<Node>) {
    var o := Opened(events[..UpTo(events, p)]);
    if o.Some? then o.value else []
  }

  lemma {:induction false} PrefixOpened(events: seq<Event>, n: nat)
    requires n <= |events| && Opened(events).Some?
    ensures Opened(events[..n]).Some?
    decreases |events|
  {
    if n == |events| {
      assert events[..n] == events;
    } else {
      PrefixOpened(events[..|events| - 1], n);
      assert events[..|events| - 1][..n] == events[..n];
    }
  }

  lemma OpenedStep(events: seq<Event>, n: nat)
    requires n < |events| && Opened(events).Some?
    ensures Opened(events[..n]).Some? && Opened(events[..n + 1]).Some?
    ensures Opened(events[..n + 1]) == TagEffect(Opened(events[..n]).value, events[n].start, events[n].node)
  {
    PrefixOpened(events, n);
    PrefixOpened(events, n + 1);
    assert events[..n + 1][..n] == events[..n];
  }

  // ---------- reading the output ----------

  /** What a reader of some output has met: the elements open now, and every character with the elements around it. */
  datatype Reading = Reading(stack: seq<Node>, chars: seq<(char, seq<Node>)>)

  function Within(text: string, stack: seq<Node>): (r: seq<(char, seq<Node>)>) {
    seq(|text|, i requires 0 <= i < |text| => (text[i], stack))
  }

  function ReadItem(r: Reading, item: Item): Option<Reading> {
    match item
    case Text(t) => Some(r.(chars := r.chars + Within(t, r.stack)))
    case Tag(start, node, _) =>
      var s := TagEffect(r.stack, start, node);
      if s.None? then None else Some(r.(stack := s.value))
  }

  /** None as soon as a closing tag does not match. */
  function Read(items: seq<Item>): (r: Option<Reading>) {
    if items == [] then Some(Reading([], []))
    else
      var before := Read(items[..|items| - 1]);
      if before.None? then None else ReadItem(before.value, items[|items| - 1])
  }

  lemma ReadSnoc(items: seq<Item>, item: Item)
    requires Read(items).Some?
    ensures Read(items + [item]) == ReadItem(Read(items).value, item)
  {
    assert (items + [item])[..|items|] == items;
  }

  function TextOf(items: seq<Item>): string {
    if items == [] then "" else (if items[0].Text? then items[0].text else "") + TextOf(items[1..])
  }

  lemma TextOfSnoc(items: seq<Item>, item: Item)
    ensures TextOf(items + [item]) == TextOf(items) + if item.Text? then item.text else ""
  {
    if items == [] {
      assert items + [item] == [item];
    } else {
      assert (items + [item])[1..] == items[1..] + [item];
      TextOfSnoc(items[1..], item);
    }
  }

  lemma {:induction false} ReadText(items: seq<Item>)
    requires Read(items).Some?
    ensures |Read(items).value.chars| == |TextOf(items)|
    ensures forall i :: 0 <= i < |TextOf(items)| ==> Read(items).value.chars[i].0 == TextOf(items)[i]
    decreases |items|
  {
    if items != [] {
      var before, last := items[..|items| - 1], items[|items| - 1];
      ReadText(before);
      TextOfSnoc(before, last);
      assert before + [last] == items;
    }
  }

  /** The original stream's tags among the output's as events, each at the number of characters before it. */
  function Originals(items: seq<Item>): (r: seq<Event>) {
    if items == [] then []
    else
      var last, before := items[|items| - 1], items[..|items| - 1];
      Originals(before) + if last.Tag? && last.original then [Event(last.start, |TextOf(before)|, last.node)] else []
  }

  lemma OriginalsSnoc(items: seq<Item>, item: Item)
    ensures Originals(items + [item]) ==
      Originals(items) + if item.Tag? && item.original then [Event(item.start, |TextOf(items)|, item.node)] else []
  {
    assert (items + [item])[..|items|] == items;
  }

  // ---------- spans without content ----------

  /** The output ends with the opening of a highlighted span: nothing has been written inside it yet. */
  predicate JustOpened(items: seq<Item>) {
    items != [] &&
    match items[|items| - 1]
    case Text(t) => t == "" && JustOpened(items[..|items| - 1])
    case Tag(start, _, original) => start && !original
  }

  /** How often the output opens a highlighted span and closes it at once. */
  function Hollow(items: seq<Item>): nat {
    if items == [] then 0
    else
      var last, before := items[|items| - 1], items[..|items| - 1];
      Hollow(before) + if last.Tag? && !last.start && !last.original && JustOpened(before) then 1 else 0
  }

  /** A start followed by a stop at the same offset. */
  predicate EmptyPair(events: seq<Event>, j: nat) {
    0 < j < |events| && events[j - 1].start && !events[j].start && events[j - 1].offset == events[j].offset
  }

  /** How many spans of the stream are empty and have nothing inside. */
  function EmptySpans(events: seq<Event>): nat {
    if events == [] then 0
    else EmptySpans(events[..|events| - 1]) + if EmptyPair(events, |events| - 1) then 1 else 0
  }

  lemma HollowSnoc(items: seq<Item>, item: Item)
    ensures Hollow(items + [item]) == Hollow(items) + if item.Tag? && !item.start && !item.original && JustOpened(items) then 1 else 0
    ensures JustOpened(items + [item]) <==> if item.Text? then item.text == "" && JustOpened(items) else item.start && !item.original
  {
    assert (items + [item])[..|items|] == items;
  }

  lemma EmptySpansStep(events: seq<Event>, j: nat)
    requires j < |events|
    ensures EmptySpans(events[..j + 1]) == EmptySpans(events[..j]) + if EmptyPair(events, j) then 1 else 0
  {
    assert events[..j + 1][..j] == events[..j];
  }

  // ---------- the merge ----------

  /** `i`: whether the next event is the original stream's. At one offset a highlighted stop goes first,
      a highlighted start last. */
  predicate OriginalNext(original: seq<Event>, highlighted: seq<Event>) {
    if original != [] && highlighted != [] then
      if original[0].offset != highlighted[0].offset then original[0].offset < highlighted[0].offset
      else highlighted[0].start
    else original != []
  }

  /** The reading promised of the first `n` characters: each stands inside the original elements around it,
      and inside them the highlighted ones. */
  function Promised(original: seq<Event>, highlighted: seq<Event>, value: string, n: nat): (r: seq<(char, seq<Node>)>)
    requires n <= |value|
  {
    seq(n, p requires 0 <= p < n => (value[p], Around(original, p) + Around(highlighted, p)))
  }

  lemma UpToHere(events: seq<Event>, n: nat, l: nat, o: nat, p: nat)
    requires n <= |events| && l <= p < o
    requires forall x :: 0 <= x < n ==> events[x].offset <= l
    requires n < |events| ==> o <= events[n].offset
    ensures UpTo(events, p) == n
  {
  }

  /** No event lies strictly between `l` and `o`, so the text there has one context. */
  lemma PromisedStretch(original: seq<Event>, highlighted: seq<Event>, value: string, l: nat, o: nat, i: nat, j: nat)
    requires l <= o <= |value| && i <= |original| && j <= |highlighted|
    requires WellNested(original, |value|) && WellNested(highlighted, |value|)
    requires forall x :: 0 <= x < i ==> original[x].offset <= l
    requires forall x :: 0 <= x < j ==> highlighted[x].offset <= l
    requires i < |original| ==> o <= original[i].offset
    requires j < |highlighted| ==> o <= highlighted[j].offset
    ensures Opened(original[..i]).Some? && Opened(highlighted[..j]).Some?
    ensures Promised(original, highlighted, value, o) == Promised(original, highlighted, value, l)
      + Within(value[l..o], Opened(original[..i]).value + Opened(highlighted[..j]).value)
  {
    PrefixOpened(original, i);
    PrefixOpened(highlighted, j);
    var context := Opened(original[..i]).value + Opened(highlighted[..j]).value;
    forall p | l <= p < o
      ensures Around(original, p) + Around(highlighted, p) == context
    {
      UpToHere(original, i, l, o, p);
      UpToHere(highlighted, j, l, o, p);
    }
  }

  /** One more highlighted span is open: `out`, which reads `r` but for `outer` and the first `k` of `f` open, is extended. */
  lemma OpenOne(out: seq<Item>, r: Reading, outer: seq<Node>, f: seq<Node>, k: nat)
    requires k < |f| && !f[k].isVoid && Read(out) == Some(r.(stack := outer + f[..k]))
    ensures Read(out + [Tag(true, f[k], false)]) == Some(r.(stack := outer + f[..k + 1]))
    ensures Originals(out + [Tag(true, f[k], false)]) == Originals(out)
  {
    ReadSnoc(out, Tag(true, f[k], false));
    OriginalsSnoc(out, Tag(true, f[k], false));
    assert outer + f[..k + 1] == (outer + f[..k]) + [f[k]];
  }

  lemma CloseOne(out: seq<Item>, r: Reading, outer: seq<Node>, f: seq<Node>, k: nat)
    requires k < |f| && !f[k].isVoid && Read(out) == Some(r.(stack := outer + f[..k + 1]))
    ensures Read(out + [Tag(false, f[k], false)]) == Some(r.(stack := outer + f[..k]))
    ensures Originals(out + [Tag(false, f[k], false)]) == Originals(out)
  {
    ReadSnoc(out, Tag(false, f[k], false));
    OriginalsSnoc(out, Tag(false, f[k], false));
    assert outer + f[..k + 1] == (outer + f[..k]) + [f[k]];
  }

  /** `f.reverse().forEach(close)`: the highlighted spans are closed, innermost first. */
  method CloseAll(f: seq<Node>, s: seq<Item>, ghost outer: seq<Node>) returns (out: seq<Item>)
    requires Read(s).Some? && Read(s).value.stack == outer + f
    requires forall n :: n in f ==> !n.isVoid
    ensures Read(out) == Some(Read(s).value.(stack := outer))
    ensures Originals(out) == Originals(s)
    ensures !JustOpened(s) ==> Hollow(out) == Hollow(s) && !JustOpened(out)
  {
    out := s;
    ghost var r := Read(s).value;
    var k := |f|;
    assert f[..|f|] == f;
    while k > 0
      invariant 0 <= k <= |f| && Read(out) == Some(r.(stack := outer + f[..k])) && Originals(out) == Originals(s)
      invariant !JustOpened(s) ==> Hollow(out) == Hollow(s) && !JustOpened(out)
    {
      k := k - 1;
      CloseOne(out, r, outer, f, k);
      HollowSnoc(out, Tag(false, f[k], false));
      out := out + [Tag(false, f[k], false)];
    }
    assert outer + f[..0] == outer;
  }

  /** `f.reverse().forEach(open)`: they are opened again, outermost first. */
  method OpenAll(f: seq<Node>, s: seq<Item>, ghost outer: seq<Node>) returns (out: seq<Item>)
    requires Read(s).Some? && Read(s).value.stack == outer
    requires forall n :: n in f ==> !n.isVoid
    ensures Read(out) == Some(Read(s).value.(stack := outer + f))
    ensures Originals(out) == Originals(s) && Hollow(out) == Hollow(s)
  {
    out := s;
    ghost var r := Read(s).value;
    assert outer + f[..0] == outer;
    for k := 0 to |f|
      invariant Read(out) == Some(r.(stack := outer + f[..k])) && Originals(out) == Originals(s) && Hollow(out) == Hollow(s)
    {
      OpenOne(out, r, outer, f, k);
      HollowSnoc(out, Tag(true, f[k], false));
      out := out + [Tag(true, f[k], false)];
    }
    assert f[..|f|] == f;
  }

  /** `i` original and `j` highlighted events, and the text before `l`, are in the output `s`. */
  ghost predicate At(original: seq<Event>, highlighted: seq<Event>, value: string, i: nat, j: nat, l: nat) {
    && WellNested(original, |value|) && WellNested(highlighted, |value|)
    && (forall ev :: ev in highlighted ==> !ev.node.isVoid)
    && i <= |original| && j <= |highlighted| && l <= |value|
    && (forall x :: 0 <= x < i ==> original[x].offset <= l)
    && (forall x :: 0 <= x < j ==> highlighted[x].offset <= l)
    && (i < |original| ==> l <= original[i].offset)
    && (j < |highlighted| ==> l <= highlighted[j].offset)
    && Opened(original[..i]).Some? && Opened(highlighted[..j]).Some?
  }

  ghost predicate Written(original: seq<Event>, highlighted: seq<Event>, value: string, i: nat, l: nat, f: seq<Node>, s: seq<Item>)
    requires i <= |original| && l <= |value| && Opened(original[..i]).Some?
  {
    && Read(s) == Some(Reading(Opened(original[..i]).value + f, Promised(original, highlighted, value, l)))
    && Originals(s) == original[..i]
  }

  lemma NoneVoid(events: seq<Event>)
    requires Opened(events).Some? && forall ev :: ev in events ==> !ev.node.isVoid
    ensures forall n :: n in Opened(events).value ==> !n.isVoid
  {
    if events != [] { NoneVoid(events[..|events| - 1]); }
  }

  lemma NothingWritten(original: seq<Event>, highlighted: seq<Event>, value: string)
    ensures original[..0] == [] && highlighted[..0] == []
    ensures Written(original, highlighted, value, 0, 0, [], [])
  {
    assert Promised(original, highlighted, value, 0) == [];
    assert Opened(original[..0]).value + [] == [];
  }

  /** The text up to the next event. */
  lemma WriteText(original: seq<Event>, highlighted: seq<Event>, value: string, i: nat, j: nat, l: nat, o: nat, s: seq<Item>)
    requires At(original, highlighted, value, i, j, l) && l <= o <= |value|
    requires Written(original, highlighted, value, i, l, Opened(highlighted[..j]).value, s)
    requires i < |original| ==> o <= original[i].offset
    requires j < |highlighted| ==> o <= highlighted[j].offset
    ensures At(original, highlighted, value, i, j, o)
    ensures Written(original, highlighted, value, i, o, Opened(highlighted[..j]).value, s + [Text(value[l..o])])
  {
    PromisedStretch(original, highlighted, value, l, o, i, j);
    ReadSnoc(s, Text(value[l..o]));
    OriginalsSnoc(s, Text(value[l..o]));
  }

  /** One original tag, with no highlighted span open. */
  lemma WriteOriginal(original: seq<Event>, highlighted: seq<Event>, value: string, i: nat, j: nat, l: nat, s: seq<Item>)
    requires At(original, highlighted, value, i, j, l) && i < |original| && original[i].offset == l
    requires Written(original, highlighted, value, i, l, [], s)
    ensures At(original, highlighted, value, i + 1, j, l)
    ensures Written(original, highlighted, value, i + 1, l, [], s + [Tag(original[i].start, original[i].node, true)])
  {
    OpenedStep(original, i);
    ReadText(s);
    assert original[..i + 1] == original[..i] + [original[i]];
    var tag := Tag(original[i].start, original[i].node, true);
    var before, after := Opened(original[..i]).value, Opened(original[..i + 1]).value;
    assert before + [] == before && after + [] == after;
    ReadSnoc(s, tag);
    OriginalsSnoc(s, tag);
  }

  /** Opening or closing one highlighted span inside the original elements. */
  lemma HighlightedRead(s: seq<Item>, r: Reading, outer: seq<Node>, f: seq<Node>, f': seq<Node>, ev: Event)
    requires Read(s) == Some(r) && r.stack == outer + f && !ev.node.isVoid
    requires if ev.start then f' == f + [ev.node] else f != [] && f[|f| - 1] == ev.node && f' == f[..|f| - 1]
    ensures Read(s + [Tag(ev.start, ev.node, false)]) == Some(r.(stack := outer + f'))
    ensures Originals(s + [Tag(ev.start, ev.node, false)]) == Originals(s)
  {
    ReadSnoc(s, Tag(ev.start, ev.node, false));
    OriginalsSnoc(s, Tag(ev.start, ev.node, false));
    if ev.start {
      assert outer + (f + [ev.node]) == (outer + f) + [ev.node];
    } else {
      assert (outer + f)[..|outer + f| - 1] == outer + f[..|f| - 1];
    }
  }

  /** One highlighted tag, inside the original elements. */
  lemma WriteHighlighted(original: seq<Event>, highlighted: seq<Event>, value: string, i: nat, j: nat, l: nat, s: seq<Item>)
    requires At(original, highlighted, value, i, j, l) && j < |highlighted| && highlighted[j].offset == l
    requires Written(original, highlighted, value, i, l, Opened(highlighted[..j]).value, s)
    ensures At(original, highlighted, value, i, j + 1, l)
    ensures Written(original, highlighted, value, i, l, Opened(highlighted[..j + 1]).value,
                    s + [Tag(highlighted[j].start, highlighted[j].node, false)])
    ensures var f := Opened(highlighted[..j]).value;
      if highlighted[j].start then Opened(highlighted[..j + 1]).value == f + [highlighted[j].node]
      else f != [] && Opened(highlighted[..j + 1]).value == f[..|f| - 1]
  {
    OpenedStep(highlighted, j);
    var ev, outer := highlighted[j], Opened(original[..i]).value;
    assert ev in highlighted;
    HighlightedRead(s, Read(s).value, outer, Opened(highlighted[..j]).value, Opened(highlighted[..j + 1]).value, ev);
  }

  lemma Tail(events: seq<Event>, i: nat, rest: seq<Event>)
    requires i <= |events| && rest == events[i..] && rest != []
    ensures i < |events| && rest[0] == events[i] && rest[1..] == events[i + 1..]
  {
  }

  /** The loop over the original events at offset `l`. */
  method WriteOriginals(original: seq<Event>, highlighted: seq<Event>, value: string, e0: seq<Event>, r: seq<Event>,
                        l: nat, s0: seq<Item>, ghost i0: nat, ghost j: nat)
    returns (e: seq<Event>, s: seq<Item>, ghost i: nat)
    requires At(original, highlighted, value, i0, j, l) && i0 < |original| && original[i0].offset == l
    requires e0 == original[i0..] && Written(original, highlighted, value, i0, l, [], s0)
    ensures i0 < i && At(original, highlighted, value, i, j, l) && e == original[i..]
    ensures Written(original, highlighted, value, i, l, [], s)
    ensures !(OriginalNext(e, r) && e[0].offset == l)
    ensures !JustOpened(s0) ==> Hollow(s) == Hollow(s0)
  {
    e, s, i := e0, s0, i0;
    var first := true;
    while first || (OriginalNext(e, r) && e[0].offset == l)
      invariant At(original, highlighted, value, i, j, l) && e == original[i..]
      invariant if first then i == i0 else i0 < i
      invariant Written(original, highlighted, value, i, l, [], s)
      invariant !JustOpened(s0) ==> Hollow(s) == Hollow(s0) && !JustOpened(s)
      decreases |e|
    {
      Tail(original, i, e);
      WriteOriginal(original, highlighted, value, i, j, l, s);
      HollowSnoc(s, Tag(e[0].start, e[0].node, true));
      s := s + [Tag(e[0].start, e[0].node, true)];
      e, i, first := e[1..], i + 1, false;
    }
  }

  /** The spans written are no more often empty than the stream forces: `s` has one hollow span for each empty one among the
      first `j` events. Where a span has just been opened no original event is left, and it is a stop's own if that is next. */
  ghost predicate Frugal(original: seq<Event>, highlighted: seq<Event>, i: nat, j: nat, l: nat, s: seq<Item>)
    requires i <= |original| && j <= |highlighted|
  {
    && Hollow(s) == EmptySpans(highlighted[..j])
    && (JustOpened(s) && i < |original| ==> original[i].offset > l)
    && (j < |highlighted| && !highlighted[j].start && highlighted[j].offset == l ==> (JustOpened(s) <==> EmptyPair(highlighted, j)))
  }

  lemma FrugalText(original: seq<Event>, highlighted: seq<Event>, value: string, i: nat, j: nat, l: nat, o: nat, s: seq<Item>)
    requires i <= |original| && j <= |highlighted| && l <= o <= |value| && Frugal(original, highlighted, i, j, l, s)
    requires forall x :: 0 <= x < j ==> highlighted[x].offset <= l
    ensures Frugal(original, highlighted, i, j, o, s + [Text(value[l..o])])
  {
    HollowSnoc(s, Text(value[l..o]));
  }

  lemma FrugalHighlighted(original: seq<Event>, highlighted: seq<Event>, i: nat, j: nat, l: nat, s: seq<Item>)
    requires i <= |original| && j < |highlighted| && highlighted[j].offset == l && Frugal(original, highlighted, i, j, l, s)
    requires !OriginalNext(original[i..], highlighted[j..]) && (i < |original| ==> l <= original[i].offset)
    ensures Frugal(original, highlighted, i, j + 1, l, s + [Tag(highlighted[j].start, highlighted[j].node, false)])
  {
    HollowSnoc(s, Tag(highlighted[j].start, highlighted[j].node, false));
    EmptySpansStep(highlighted, j);
  }

  lemma FrugalOriginals(original: seq<Event>, highlighted: seq<Event>, i0: nat, i: nat, j: nat, l: nat, s0: seq<Item>, s: seq<Item>)
    requires i0 < i <= |original| && j <= |highlighted| && Frugal(original, highlighted, i0, j, l, s0)
    requires original[i0].offset == l && OriginalNext(original[i0..], highlighted[j..])
    requires !(OriginalNext(original[i..], highlighted[j..]) && original[i..][0].offset == l)
    requires (i < |original| ==> l <= original[i].offset) && (j < |highlighted| ==> l <= highlighted[j].offset)
    requires !JustOpened(s0) ==> Hollow(s) == Hollow(s0)
    ensures Frugal(original, highlighted, i, j, l, s)
  {
  }

  /** The original events at offset `l`, with the highlighted spans closed before and opened again after them. */
  method MergeOriginals(original: seq<Event>, highlighted: seq<Event>, value: string, e0: seq<Event>, r: seq<Event>,
                        l: nat, f: seq<Node>, s0: seq<Item>, ghost i0: nat, ghost j: nat)
    returns (e: seq<Event>, s: seq<Item>, ghost i: nat)
    requires At(original, highlighted, value, i0, j, l) && i0 < |original| && original[i0].offset == l
    requires e0 == original[i0..] && r == highlighted[j..] && f == Opened(highlighted[..j]).value
    requires Written(original, highlighted, value, i0, l, f, s0)
    requires OriginalNext(e0, r) && Frugal(original, highlighted, i0, j, l, s0)
    ensures i0 < i && At(original, highlighted, value, i, j, l) && e == original[i..]
    ensures Written(original, highlighted, value, i, l, f, s) && Frugal(original, highlighted, i, j, l, s)
  {
    NoneVoid(highlighted[..j]);
    s := CloseAll(f, s0, Opened(original[..i0]).value);
    assert Opened(original[..i0]).value + [] == Opened(original[..i0]).value;
    e, s, i := WriteOriginals(original, highlighted, value, e0, r, l, s, i0, j);
    assert Opened(original[..i]).value + [] == Opened(original[..i]).value;
    s := OpenAll(f, s, Opened(original[..i]).value);
    FrugalOriginals(original, highlighted, i0, i, j, l, s0, s);
  }

  /** The next highlighted event, at offset `l` */
  method MergeHighlighted(original: seq<Event>, highlighted: seq<Event>, value: string, ev: Event,
                          l: nat, f0: seq<Node>, s0: seq<Item>, ghost i: nat, ghost j: nat)
    returns (f: seq<Node>, s: seq<Item>)
    requires At(original, highlighted, value, i, j, l) && j < |highlighted| && highlighted[j] == ev && ev.offset == l
    requires f0 == Opened(highlighted[..j]).value && Written(original, highlighted, value, i, l, f0, s0)
    requires !OriginalNext(original[i..], highlighted[j..]) && Frugal(original, highlighted, i, j, l, s0)
    ensures At(original, highlighted, value, i, j + 1, l) && f == Opened(highlighted[..j + 1]).value
    ensures Written(original, highlighted, value, i, l, f, s) && Frugal(original, highlighted, i, j + 1, l, s)
  {
    WriteHighlighted(original, highlighted, value, i, j, l, s0);
    FrugalHighlighted(original, highlighted, i, j, l, s0);
    f := if ev.start then f0 + [ev.node] else f0[..|f0| - 1];
    s := s0 + [Tag(ev.start, ev.node, false)];
  }

  /** The text behind the last event */
  lemma WriteRest(original: seq<Event>, highlighted: seq<Event>, value: string, i: nat, j: nat, l: nat, s: seq<Item>)
    requires At(original, highlighted, value, i, j, l) && i == |original| && j == |highlighted|
    requires Written(original, highlighted, value, i, l, Opened(highlighted[..j]).value, s) && Frugal(original, highlighted, i, j, l, s)
    ensures Read(s + [Text(value[l..])]) == Some(Reading([], Promised(original, highlighted, value, |value|)))
    ensures Originals(s + [Text(value[l..])]) == original && Hollow(s + [Text(value[l..])]) == EmptySpans(highlighted)
  {
    WriteText(original, highlighted, value, i, j, l, |value|, s);
    FrugalText(original, highlighted, value, i, j, l, |value|, s);
    assert original[..i] == original && highlighted[..j] == highlighted && value[l..] == value[l..|value|];
    var none: seq<Node> := [];
    assert none + [] == [];
  }

  /** The merged output is well nested; in it every character of the text appears once, in order, inside exactly
      the elements that each stream puts around it; the original tags, with their offsets, are the original stream;
      and a highlighted span is opened and closed at once only for each one that is so in its stream. */
  method Merge(original: seq<Event>, highlighted: seq<Event>, value: string) returns (s: seq<Item>)
    requires WellNested(original, |value|) && WellNested(highlighted, |value|)
    requires forall ev :: ev in highlighted ==> !ev.node.isVoid
    ensures Read(s) == Some(Reading([], Promised(original, highlighted, value, |value|)))
    ensures Originals(s) == original && Hollow(s) == EmptySpans(highlighted)
  {
    var e, r := original, highlighted;
    var l: nat, f: seq<Node> := 0, [];
    s := [];
    ghost var i: nat, j: nat := 0, 0;
    NothingWritten(original, highlighted, value);
    while e != [] || r != []
      invariant At(original, highlighted, value, i, j, l)
      invariant e == original[i..] && r == highlighted[j..] && f == Opened(highlighted[..j]).value
      invariant Written(original, highlighted, value, i, l, f, s) && Frugal(original, highlighted, i, j, l, s)
      decreases |e| + |r|
    {
      var fromOriginal := OriginalNext(e, r);
      var o := if fromOriginal then e[0].offset else r[0].offset;
      WriteText(original, highlighted, value, i, j, l, o, s);
      FrugalText(original, highlighted, value, i, j, l, o, s);
      s := s + [Text(value[l..o])];
      l := o;
      if fromOriginal {
        e, s, i := MergeOriginals(original, highlighted, value, e, r, l, f, s, i, j);
      } else {
        Tail(highlighted, j, r);
        f, s := MergeHighlighted(original, highlighted, value, r[0], l, f, s, i, j);
        r, j := r[1..], j + 1;
      }
    }
    WriteRest(original, highlighted, value, i, j, l, s);
    s := s + [Text(value[l..])];
  }

  // ---------- the rendered string ----------

  function RenderItem(item: Item): string {
    match item
    case Tag(start, node, _) => Html.Tag(if start then node.name + node.attributes else "/" + node.name)
    case Text(t) => Html.Escape(t)
  }

  function Render(items: seq<Item>): string {
    if items == [] then "" else RenderItem(items[0]) + Render(items[1..])
  }

  lemma {:induction false} StripRendered(items: seq<Item>)
    requires forall item :: item in items && item.Tag? ==> Html.TagFree(item.node.name) && Html.TagFree(item.node.attributes)
    ensures Html.Strip(Render(items), false) == Html.Escape(TextOf(items))
  {
    Html.EscapeEmpty();
    if items != [] {
      var rest := Render(items[1..]);
      StripRendered(items[1..]);
      match items[0]
      case Tag(start, node, _) =>
        assert items[0] in items && TextOf(items) == TextOf(items[1..]);
        Html.StripTag(if start then node.name + node.attributes else "/" + node.name, rest);
      case Text(t) =>
        Html.EscapeHasNoTag(t);
        Html.StripText(Html.Escape(t), rest);
        Html.EscapeConcat(t, TextOf(items[1..]));
    }
  }

  /** Whatever output keeps the promise of `Merge` shows, once rendered, exactly the text. */
  lemma MergedPageShowsText(original: seq<Event>, highlighted: seq<Event>, value: string, items: seq<Item>)
    requires Read(items) == Some(Reading([], Promised(original, highlighted, value, |value|)))
    requires forall item :: item in items && item.Tag? ==> Html.TagFree(item.node.name) && Html.TagFree(item.node.attributes)
    ensures Html.Unescape(Html.Strip(Render(items), false)) == value
  {
    ReadText(items);
    assert TextOf(items) == value;
    StripRendered(items);
    Html.UnescapeEscape(value);
  }
}
