/** Which text the highlighter puts into which span: keywords, beginnings, ends and embedded languages. */
module HighlighterSpans {
  import opened Wrappers
  import opened Html
  import opened Highlighter
  import opened HighlighterProofs
  import opened HighlighterExact

  // ---------- keywords ----------

  /** Where the search for the word behind the first `k` begins. */
  function SearchFrom(ws: seq<Match>, k: nat): nat
    requires k <= |ws|
  {
    if k == 0 then 0 else ws[k - 1].index + ws[k - 1].length
  }

  predicate Usable(w: Match, s: string, from: nat) {
    from <= w.index && w.index + w.length <= |s| && w.length > 0
  }

  /** Each word is what the lexeme expression matches from the end of the word before. */
  ghost predicate Found(g: Grammar, m: ModeId, s: string, ws: seq<Match>) {
    forall k: nat :: k < |ws| ==> FoundAt(g, m, s, ws, k)
  }

  predicate FoundAt(g: Grammar, m: ModeId, s: string, ws: seq<Match>, k: nat)
    requires k < |ws|
  {
    Usable(ws[k], s, SearchFrom(ws, k)) && g.lexeme(m, s, SearchFrom(ws, k)) == Some(ws[k])
  }

  /** `ws` are all the words of `s`. */
  ghost predicate Words(g: Grammar, m: ModeId, s: string, ws: seq<Match>) {
    var last := g.lexeme(m, s, SearchFrom(ws, |ws|));
    Found(g, m, s, ws) && !(last.Some? && Usable(last.value, s, SearchFrom(ws, |ws|)))
  }

  /** From position `at` on the pieces show the word, in a span of its class if it is a keyword; before it the text before it. */
  predicate ShowsWord(g: Grammar, m: ModeId, s: string, w: Match, pieces: seq<Piece>, at: nat) {
    && w.index + w.length <= |s| && at < |pieces|
    && TextOf(pieces[..at]) == Escape(s[..w.index])
    && var word := s[w.index..w.index + w.length];
       match g.keyword(m, word)
       case None => pieces[at] == Text(Escape(word))
       case Some(hit) => at + 3 <= |pieces| && pieces[at..at + 3] == [Open(g.classPrefix + hit.0), Text(Escape(word)), Close]
  }

  /** The words stand at the positions `at`, one behind the other, and no other piece opens a span. */
  ghost predicate Marked(g: Grammar, m: ModeId, s: string, ws: seq<Match>, pieces: seq<Piece>, at: seq<nat>) {
    && |at| == |ws|
    && (forall i: nat :: i < |ws| ==> ShowsAt(g, m, s, ws, pieces, at, i))
    && (forall i: nat {:trigger InTurn(at, i)} :: InTurn(at, i))
    && (forall p: nat {:trigger OpensAt(pieces, p)} :: OpensAt(pieces, p) ==> p in at)
  }

  predicate ShowsAt(g: Grammar, m: ModeId, s: string, ws: seq<Match>, pieces: seq<Piece>, at: seq<nat>, i: nat)
    requires i < |ws| == |at|
  {
    ShowsWord(g, m, s, ws[i], pieces, at[i])
  }

  /** The position behind comes later. */
  predicate InTurn(at: seq<nat>, i: nat) {
    i + 1 < |at| ==> at[i] < at[i + 1]
  }

  predicate OpensAt(pieces: seq<Piece>, p: nat) {
    p < |pieces| && pieces[p].Open?
  }

  /** The relevance of the keywords among the words. */
  function Score(g: Grammar, m: ModeId, s: string, ws: seq<Match>): real {
    if ws == [] then 0.0
    else
      var w := ws[|ws| - 1];
      var hit := if w.index + w.length <= |s| then g.keyword(m, s[w.index..w.index + w.length]) else None;
      Score(g, m, s, ws[..|ws| - 1]) + if hit.Some? then hit.value.1 else 0.0
  }

  lemma FoundSnoc(g: Grammar, m: ModeId, s: string, ws: seq<Match>, w: Match)
    requires Found(g, m, s, ws) && Usable(w, s, SearchFrom(ws, |ws|)) && g.lexeme(m, s, SearchFrom(ws, |ws|)) == Some(w)
    ensures Found(g, m, s, ws + [w])
  {
    var longer := ws + [w];
    forall k: nat | k < |longer| ensures FoundAt(g, m, s, longer, k) {
      assert SearchFrom(longer, k) == SearchFrom(ws, k);
      if k < |ws| { assert FoundAt(g, m, s, ws, k); }
    }
  }

  lemma ShownLonger(g: Grammar, m: ModeId, s: string, w: Match, pieces: seq<Piece>, at: nat, more: seq<Piece>)
    requires ShowsWord(g, m, s, w, pieces, at)
    ensures ShowsWord(g, m, s, w, pieces + more, at)
  {
    assert (pieces + more)[..at] == pieces[..at];
    if at + 3 <= |pieces| { assert (pieces + more)[at..at + 3] == pieces[at..at + 3]; }
  }

  lemma WordShown(g: Grammar, m: ModeId, s: string, from: nat, w: Match, done: seq<Piece>)
    requires from <= |s| && Usable(w, s, from) && Sound(Claim(true, {}, false), done, s[..from])
    ensures ShowsWord(g, m, s, w, done + UpToWord(g, m, s, from, w), |done| + 1)
  {
    var k, gap := Claim(true, {}, false), s[from..w.index];
    var word := s[w.index..w.index + w.length];
    var pieces := done + UpToWord(g, m, s, from, w);
    PlainSound(k, gap);
    SoundConcat(k, done, [Text(Escape(gap))], s[..from], gap);
    assert s[..from] + gap == s[..w.index];
    Shape(done, Text(Escape(gap)), Wrapped(g, m, word));
  }

  lemma Shape(done: seq<Piece>, gap: Piece, wrapped: seq<Piece>)
    ensures var pieces := done + ([gap] + wrapped);
      pieces[..|done| + 1] == done + [gap] && pieces[|done| + 1..] == wrapped
    ensures |wrapped| == 3 ==> (done + ([gap] + wrapped))[|done| + 1..|done| + 4] == wrapped
    ensures |wrapped| == 1 ==> (done + ([gap] + wrapped))[|done| + 1] == wrapped[0]
  {
  }

  lemma MarkOne(g: Grammar, m: ModeId, s: string, from: nat, w: Match, done: seq<Piece>, ws: seq<Match>, at: seq<nat>)
    requires from <= |s| && Usable(w, s, from) && Sound(Claim(true, {}, false), done, s[..from])
    requires Marked(g, m, s, ws, done, at)
    ensures Marked(g, m, s, ws + [w], done + UpToWord(g, m, s, from, w), at + [|done| + 1])
  {
    var more := UpToWord(g, m, s, from, w);
    var pieces, ws', at' := done + more, ws + [w], at + [|done| + 1];
    WordShown(g, m, s, from, w, done);
    forall i: nat | i < |ws'| ensures ShowsAt(g, m, s, ws', pieces, at', i) {
      if i < |ws| {
        assert ShowsAt(g, m, s, ws, done, at, i);
        ShownLonger(g, m, s, ws[i], done, at[i], more);
      }
    }
    forall i: nat ensures InTurn(at', i) {
      assert InTurn(at, i);
      if i + 1 == |at| { assert ShowsAt(g, m, s, ws, done, at, i); }
    }
    forall p: nat | OpensAt(pieces, p) ensures p in at' {
      if p >= |done| {
        assert pieces[p] == more[p - |done|];
        assert at'[|at|] == |done| + 1;
      } else {
        assert OpensAt(done, p);
      }
    }
  }

  lemma MarkRest(g: Grammar, m: ModeId, s: string, done: seq<Piece>, ws: seq<Match>, at: seq<nat>, rest: string)
    requires Marked(g, m, s, ws, done, at)
    ensures Marked(g, m, s, ws, done + [Text(Escape(rest))], at)
  {
    var pieces := done + [Text(Escape(rest))];
    forall i: nat | i < |ws| ensures ShowsAt(g, m, s, ws, pieces, at, i) {
      assert ShowsAt(g, m, s, ws, done, at, i);
      ShownLonger(g, m, s, ws[i], done, at[i], [Text(Escape(rest))]);
    }
    forall p: nat | OpensAt(pieces, p) ensures p in at { assert OpensAt(done, p); }
  }

  /** The words `ws` up to `from` have been looked at, and are in `done`. */
  ghost predicate MarkedTo(g: Grammar, m: ModeId, s: string, from: nat, done: seq<Piece>, gained: real, ws: seq<Match>, at: seq<nat>) {
    && from <= |s| && from == SearchFrom(ws, |ws|) && Sound(Claim(true, {}, false), done, s[..from])
    && Found(g, m, s, ws) && Marked(g, m, s, ws, done, at) && gained == Score(g, m, s, ws)
  }

  lemma MarkStep(g: Grammar, m: ModeId, s: string, from: nat, done: seq<Piece>, gained: real, ws: seq<Match>, at: seq<nat>, w: Match)
    requires MarkedTo(g, m, s, from, done, gained, ws, at) && g.lexeme(m, s, from) == Some(w) && Usable(w, s, from)
    ensures var end := w.index + w.length;
      MarkedTo(g, m, s, end, done + UpToWord(g, m, s, from, w), gained + Gain(g, m, s[w.index..end]), ws + [w], at + [|done| + 1])
  {
    FoundSnoc(g, m, s, ws, w);
    MarkOne(g, m, s, from, w, done, ws, at);
    KeywordRound(g, Claim(true, {}, false), m, s, from, w, done);
    assert (ws + [w])[..|ws|] == ws;
  }

  lemma MarkEnd(g: Grammar, m: ModeId, s: string, from: nat, done: seq<Piece>, gained: real, ws: seq<Match>, at: seq<nat>)
    requires MarkedTo(g, m, s, from, done, gained, ws, at) && NextWord(g, m, s, from) == None
    ensures Words(g, m, s, ws)
    ensures var (pieces, score) := Keywords(g, m, s, from, done, gained); Marked(g, m, s, ws, pieces, at) && score == Score(g, m, s, ws)
  {
    MarkRest(g, m, s, done, ws, at, s[from..]);
  }

  lemma {:induction false} MarkAll(g: Grammar, m: ModeId, s: string, from: nat, done: seq<Piece>, gained: real, ws: seq<Match>, at: seq<nat>)
    returns (ws': seq<Match>, at': seq<nat>)
    requires MarkedTo(g, m, s, from, done, gained, ws, at)
    ensures Words(g, m, s, ws')
    ensures var (pieces, score) := Keywords(g, m, s, from, done, gained); Marked(g, m, s, ws', pieces, at') && score == Score(g, m, s, ws')
    decreases |s| - from
  {
    var next := NextWord(g, m, s, from);
    if next == None {
      MarkEnd(g, m, s, from, done, gained, ws, at);
      ws', at' := ws, at;
    } else {
      var w := next.value;
      var end := w.index + w.length;
      MarkStep(g, m, s, from, done, gained, ws, at, w);
      assert Keywords(g, m, s, from, done, gained)
        == Keywords(g, m, s, end, done + UpToWord(g, m, s, from, w), gained + Gain(g, m, s[w.index..end]));
      ws', at' := MarkAll(g, m, s, end, done + UpToWord(g, m, s, from, w), gained + Gain(g, m, s[w.index..end]), ws + [w], at + [|done| + 1]);
    }
  }

  /** Every word of the pending text that is a keyword, and nothing else, stands in a span, of its class; and the relevance
      gained is that of the keywords. */
  lemma KeywordsMarked(g: Grammar, m: ModeId, s: string) returns (ws: seq<Match>, at: seq<nat>)
    ensures Words(g, m, s, ws)
    ensures var (pieces, score) := Keywords(g, m, s, 0, [], 0.0); Marked(g, m, s, ws, pieces, at) && score == Score(g, m, s, ws)
  {
    EscapeEmpty();
    assert s[..0] == "" && Sound(Claim(true, {}, false), [], s[..0]);
    ws, at := MarkAll(g, m, s, 0, [], 0.0, [], []);
  }

  // ---------- flushing ----------

  /** What a flush appends shows the pending text: plain, with its keywords marked, or inside a span that is named after the
      language in which it is highlighted. */
  lemma FlushWraps(g: Grammar, fuel: nat, s: State) returns (ws: seq<Match>, at: seq<nat>)
    requires s.stack != [] && Flush(g, fuel, s).Ok?
    ensures var m, t := Top(s.stack), Flush(g, fuel, s).value;
      && s.out <= t.out && t.buffer == "" && t.stack == s.stack
      && var added := t.out[|s.out|..];
         match g.mode(m).subLanguage
         case NoSubLanguage =>
           if g.mode(m).hasKeywords then
             Words(g, m, s.buffer, ws) && Marked(g, m, s.buffer, ws, added, at) && t.relevance == s.relevance + Score(g, m, s.buffer, ws)
           else added == [Text(Escape(s.buffer))] && t.relevance == s.relevance
         case Explicit(name) =>
           if g.registered(name) then |added| >= 2 && added[0] == Open(name) && added[|added| - 1] == Close
           else added == [Text(Escape(s.buffer))]
         case Automatic(_) => |added| >= 2 && added[0].Open? && added[|added| - 1] == Close
  {
    ws, at := KeywordsMarked(g, Top(s.stack), s.buffer);
    var t := Flush(g, fuel, s).value;
    FlushedSound(g, Claim(false, {}, false), fuel, s);
    assert t.out[|s.out|..] == Flushed(g, fuel, s);
    if g.mode(Top(s.stack)).subLanguage.NoSubLanguage? {
      var (pieces, _) := Keywords(g, Top(s.stack), s.buffer, 0, [], 0.0);
      if g.mode(Top(s.stack)).hasKeywords { assert t.out == s.out + pieces; } else { assert t.out == s.out + [Text(Escape(s.buffer))]; }
    }
  }

  /** A faithful flush appends balanced pieces that show exactly the pending text. */
  lemma FlushShows(g: Grammar, fuel: nat, s: State) returns (mid: seq<Piece>)
    requires s.stack != [] && Flush(g, fuel, s).Ok? && FlushFaithful(g, fuel, s)
    ensures Flush(g, fuel, s).value.out == s.out + mid && Balanced(mid) && TextOf(mid) == Escape(s.buffer)
  {
    FlushedSound(g, Claim(false, {}, false), fuel, s);
    mid := Flushed(g, fuel, s);
    TextOfConcat(s.out, mid);
    EscapeEmpty();
    assert TextOf(s.out) + TextOf(mid) == TextOf(s.out) + Escape(s.buffer);
    SameRest(TextOf(s.out), TextOf(mid), Escape(s.buffer));
  }

  lemma SameRest(a: string, b: string, c: string)
    requires a + b == a + c
    ensures b == c
  {
    assert b == (a + b)[|a|..] && c == (a + c)[|a|..];
  }

  // ---------- where the text of a lexeme goes ----------

  /** The opening tag of a mode, if it has a class. */
  function TagOf(g: Grammar, m: ModeId): seq<Piece> {
    match g.mode(m).className
    case None => []
    case Some(c) => [Open(g.classPrefix + c)]
  }

  lemma OpensTag(g: Grammar, m: ModeId)
    ensures Opens(Names(g, [m])) == TagOf(g, m)
  {
    assert [m][1..] == [];
    assert Names(g, [m]) == match g.mode(m).className case None => [] case Some(c) => [g.classPrefix + c];
  }

  /** A lexeme that begins a mode: the pending text, and the lexeme if it is excluded, stand before the mode's span, and the
      lexeme, unless it is excluded or read again, inside. A mode that is skipped takes all of it inside. */
  lemma BeginPlaces(g: Grammar, fuel: nat, s: State, m: ModeId, lex: string) returns (before: seq<Piece>)
    requires s.stack != [] && FlushFaithful(g, fuel, s) && Begin(g, fuel, s, m, lex).Ok?
    ensures var mode, t := g.mode(m), Begin(g, fuel, s, m, lex).value.0;
      && t.out == s.out + before + TagOf(g, m) && Balanced(before) && t.stack == s.stack + [m]
      && TextOf(before) == Escape(if mode.skip then "" else if mode.excludeBegin then s.buffer + lex else s.buffer)
      && t.buffer == if mode.skip then s.buffer + lex else if mode.excludeBegin || mode.returnBegin then "" else lex
  {
    var mode := g.mode(m);
    OpensTag(g, m);
    EscapeEmpty();
    before := [];
    if mode.skip {
      assert s.out + [] == s.out;
    } else {
      before := FlushShows(g, fuel, if mode.excludeBegin then s.(buffer := s.buffer + lex) else s);
    }
  }

  /** How many of some modes have a class. */
  function Named(g: Grammar, modes: seq<ModeId>): nat {
    if modes == [] then 0 else (if g.mode(modes[0]).className.Some? then 1 else 0) + Named(g, modes[1..])
  }

  /** What some modes are worth. */
  function Worth(g: Grammar, modes: seq<ModeId>): real {
    if modes == [] then 0.0 else (if g.mode(modes[0]).skip then 0.0 else g.mode(modes[0]).relevance) + Worth(g, modes[1..])
  }

  lemma NamedNames(g: Grammar, modes: seq<ModeId>)
    ensures |Names(g, modes)| == Named(g, modes)
  {
  }

  lemma WorthSnoc(g: Grammar, modes: seq<ModeId>, m: ModeId)
    ensures Worth(g, modes + [m]) == Worth(g, modes) + if g.mode(m).skip then 0.0 else g.mode(m).relevance
  {
    if modes == [] {
      assert modes + [m] == [m] && [m][1..] == [];
    } else {
      assert (modes + [m])[1..] == modes[1..] + [m];
      WorthSnoc(g, modes[1..], m);
    }
  }

  lemma {:induction false} RelevanceIsWorth(g: Grammar, modes: seq<ModeId>)
    ensures Relevance(g, modes) == Worth(g, modes)
  {
    if modes != [] {
      var n := |modes| - 1;
      RelevanceIsWorth(g, modes[..n]);
      WorthSnoc(g, modes[..n], modes[n]);
      assert modes == modes[..n] + [modes[n]];
    }
  }

  /** A lexeme that ends the modes from position `i` up: the pending text, and the lexeme unless it is excluded or read again,
      stand inside their spans, and an excluded lexeme behind. A mode that is skipped leaves all of it pending. Their spans
      are closed and what they are worth is gained, and the mode that the outermost of them starts is begun. */
  lemma EndPlaces(g: Grammar, fuel: nat, s: State, i: nat, lex: string) returns (inside: seq<Piece>, gained: real)
    requires i < |s.stack| && FlushFaithful(g, fuel, s) && End(g, fuel, s, i, lex).Ok?
    ensures var origin, starts, t := g.mode(Top(s.stack)), g.mode(s.stack[i]).starts, End(g, fuel, s, i, lex).value.0;
      && Balanced(inside)
      && t.out == s.out + inside + seq(Named(g, s.stack[i..]), _ => Close) + (if starts.Some? then TagOf(g, starts.value) else [])
      && t.stack == s.stack[..i] + (if starts.Some? then [starts.value] else [])
      && TextOf(inside) == Escape(if origin.skip then "" else if origin.excludeEnd || origin.returnEnd then s.buffer else s.buffer + lex)
      && t.buffer == (if origin.skip then s.buffer + lex else if origin.excludeEnd then lex else "")
      && t.relevance == s.relevance + gained + Worth(g, s.stack[i..])
      && (origin.skip || (origin.subLanguage.NoSubLanguage? && !origin.hasKeywords) ==> gained == 0.0)
  {
    var origin, starts := g.mode(Top(s.stack)), g.mode(s.stack[i]).starts;
    EscapeEmpty();
    inside := [];
    if origin.skip {
      assert s.out + [] == s.out;
    } else {
      inside := FlushShows(g, fuel, if origin.returnEnd || origin.excludeEnd then s else s.(buffer := s.buffer + lex));
    }
    var placed := PlaceEnd(g, fuel, s, lex).value;
    gained := placed.relevance - s.relevance;
    NamedNames(g, s.stack[i..]);
    RelevanceIsWorth(g, s.stack[i..]);
    assert Closes(Named(g, s.stack[i..])) == seq(Named(g, s.stack[i..]), _ => Close);
    if starts.Some? { OpensTag(g, starts.value); }
  }

  /** A run that continues another begins in the modes that one left open, with their spans opened again and nothing shown;
      any other run begins in its outermost mode. */
  lemma Resumes(g: Grammar, root: ModeId, continuation: Option<seq<ModeId>>)
    ensures var s := Initial(g, root, continuation);
      && s.stack == (if continuation.Some? && continuation.value != [] then continuation.value else [root])
      && s.buffer == "" && TextOf(s.out) == "" && Nest([], s.out) == Some(Names(g, s.stack[1..])) && |s.out| == Named(g, s.stack[1..])
  {
    var s := Initial(g, root, continuation);
    OpensNest([], Names(g, s.stack[1..]));
    NamedNames(g, s.stack[1..]);
    assert [] + Names(g, s.stack[1..]) == Names(g, s.stack[1..]);
  }

  // ---------- which mode a lexeme ends ----------

  /** The lexeme ends the mode at `i`, and none above, which all end with the mode below them. */
  predicate EndsAt(g: Grammar, stack: seq<ModeId>, i: nat, lex: string) {
    && 0 < i < |stack| && g.ends(stack[i], lex)
    && forall j :: i < j < |stack| ==> !g.ends(stack[j], lex) && g.mode(stack[j]).endsWithParent
  }

  /** The modes above `u` up to `i` end their parents, and that at `u` does not, or is the outermost. */
  predicate TakesAlong(g: Grammar, stack: seq<ModeId>, u: nat, i: nat)
    requires i < |stack|
  {
    u <= i && (forall j :: u < j <= i ==> g.mode(stack[j]).endsParent) && (u == 0 || !g.mode(stack[u]).endsParent)
  }

  lemma ClimbTakes(g: Grammar, stack: seq<ModeId>, i: nat)
    requires i < |stack|
    ensures TakesAlong(g, stack, Climb(g, stack, i), i)
  {
  }

  lemma TakesOnce(g: Grammar, stack: seq<ModeId>, u: nat, v: nat, i: nat)
    requires i < |stack| && TakesAlong(g, stack, u, i) && TakesAlong(g, stack, v, i)
    ensures u == v
  {
  }

  /** Every mode, the outermost included, ends with the one around it. */
  predicate AllEndWithParent(g: Grammar, stack: seq<ModeId>) {
    forall j :: 0 <= j < |stack| ==> g.mode(stack[j]).endsWithParent
  }

  lemma EndsFrom(g: Grammar, stack: seq<ModeId>, k: nat, lex: string)
    requires k < |stack| && forall j :: k < j < |stack| ==> !g.ends(stack[j], lex) && g.mode(stack[j]).endsWithParent
    ensures match EndOfMode(g, stack, k, lex)
      case Ok(Some(u)) => exists i: nat :: EndsAt(g, stack, i, lex) && i <= k && TakesAlong(g, stack, u, i)
      case Ok(None) => (forall i: nat :: !EndsAt(g, stack, i, lex)) && !AllEndWithParent(g, stack)
      case Err(e) => e == RootEnded && (forall i: nat :: !EndsAt(g, stack, i, lex)) && AllEndWithParent(g, stack)
  {
    if k > 0 && g.ends(stack[k], lex) {
      assert EndsAt(g, stack, k, lex);
      ClimbTakes(g, stack, k);
    } else if g.mode(stack[k]).endsWithParent && k > 0 {
      EndsFrom(g, stack, k - 1, lex);
    }
  }

  /** A lexeme ends the modes from `u` up exactly if some mode is ended by it, those above end with it, and it takes those down
      to `u` along. It runs out of modes exactly if none is ended and each would end with its parent. */
  lemma EndsExactly(g: Grammar, stack: seq<ModeId>, lex: string, u: nat)
    requires stack != []
    ensures EndOfMode(g, stack, |stack| - 1, lex) == Ok(Some(u)) <==>
      exists i: nat :: EndsAt(g, stack, i, lex) && TakesAlong(g, stack, u, i)
    ensures EndOfMode(g, stack, |stack| - 1, lex).Err? <==>
      (forall i: nat :: !EndsAt(g, stack, i, lex)) && AllEndWithParent(g, stack)
  {
    EndsFrom(g, stack, |stack| - 1, lex);
    var r := EndOfMode(g, stack, |stack| - 1, lex);
    if i: nat :| EndsAt(g, stack, i, lex) && TakesAlong(g, stack, u, i) {
      var v := r.value.value;
      var j: nat :| EndsAt(g, stack, j, lex) && TakesAlong(g, stack, v, j);
      assert i == j;
      TakesOnce(g, stack, u, v, i);
    }
  }

  /** The mode that a lexeme begins is the first of those contained whose beginning matches it. */
  lemma {:induction false} BeginsFirst(g: Grammar, contained: seq<ModeId>, lex: string)
    ensures match SubMode(g, contained, lex)
      case Some(m) => exists k {:trigger contained[k]} :: 0 <= k < |contained| && contained[k] == m && g.begins(m, lex)
                        && forall j :: 0 <= j < k ==> !g.begins(contained[j], lex)
      case None => forall j :: 0 <= j < |contained| ==> !g.begins(contained[j], lex)
  {
    if contained != [] {
      var rest := contained[1..];
      BeginsFirst(g, rest, lex);
      if g.begins(contained[0], lex) {
        assert contained[0] == SubMode(g, contained, lex).value;
      } else if SubMode(g, rest, lex).Some? {
        var k :| 0 <= k < |rest| && rest[k] == SubMode(g, rest, lex).value && forall j :: 0 <= j < k ==> !g.begins(rest[j], lex);
        assert contained[k + 1] == rest[k];
        forall j | 0 <= j < k + 1 ensures !g.begins(contained[j], lex) { if j > 0 { assert rest[j - 1] == contained[j]; } }
      } else {
        forall j | 0 <= j < |contained| ensures !g.begins(contained[j], lex) { if j > 0 { assert rest[j - 1] == contained[j]; } }
      }
    }
  }

  // ---------- illegal lexemes ----------

  /** A lexeme is illegal exactly if that matters, no contained mode begins with it, it ends none, and the current mode forbids it. */
  lemma IllegalExactly(g: Grammar, fuel: nat, ignore: bool, s: State, before: string, lex: string)
    requires s.stack != []
    ensures ProcessLexeme(g, fuel, ignore, s, before, lex) == Err(Illegal) <==>
      && !ignore && (forall m :: m in g.mode(Top(s.stack)).contains ==> !g.begins(m, lex))
      && EndOfMode(g, s.stack, |s.stack| - 1, lex) == Ok(None) && g.illegal(Top(s.stack), lex)
  {
    var s1 := s.(buffer := s.buffer + before);
    var sub, ended := SubMode(g, g.mode(Top(s.stack)).contains, lex), EndOfMode(g, s.stack, |s.stack| - 1, lex);
    BeginsFirst(g, g.mode(Top(s.stack)).contains, lex);
    EndsFrom(g, s.stack, |s.stack| - 1, lex);
    FlushLegal(g, fuel, s1);
    FlushLegal(g, fuel, s1.(buffer := s1.buffer + lex));
    if sub.Some? {
      assert Begin(g, fuel, s1, sub.value, lex) != Err(Illegal);
    } else if ended.Ok? && ended.value.Some? {
      assert End(g, fuel, s1, ended.value.value, lex) != Err(Illegal);
    }
  }

  /** An illegal lexeme of an embedded language is no trouble outside. */
  lemma FlushLegal(g: Grammar, fuel: nat, s: State)
    requires s.stack != []
    ensures Flush(g, fuel, s).Err? ==> Flush(g, fuel, s).error != Illegal
  {
    var m := g.mode(Top(s.stack));
    if m.subLanguage.Automatic? && fuel > 0 {
      AutoLegal(g, fuel - 1, if m.subLanguage.names == [] then g.allLanguages else m.subLanguage.names, s.buffer);
    }
  }

  lemma {:induction false} AutoLegal(g: Grammar, fuel: nat, names: seq<string>, text: string)
    ensures HighlightAuto(g, fuel, names, text).Err? ==> HighlightAuto(g, fuel, names, text).error != Illegal
    decreases |names|
  {
    if names != [] { AutoLegal(g, fuel, names[..|names| - 1], text); }
  }

  lemma {:induction false} ScanLegal(g: Grammar, fuel: nat, s: State, text: string, pos: nat)
    requires s.stack != []
    ensures Scan(g, fuel, true, s, text, pos) != Err(Illegal)
    decreases fuel
  {
    match NextMatch(g, s, text, pos)
    case None => FlushLegal(g, fuel, s.(buffer := s.buffer + if pos <= |text| then text[pos..] else ""));
    case Some(found) =>
      IllegalExactly(g, fuel, true, s, text[pos..found.index], text[found.index..found.index + found.length]);
      var p := Round(g, fuel, true, s, text, pos, found);
      if p.Ok? && fuel > 0 { ScanLegal(g, fuel - 1, p.value.0, text, p.value.1); }
  }

  /** A text is given up, and shown plain without relevance, only if illegal lexemes matter. */
  lemma GivenUp(g: Grammar, fuel: nat, name: string, text: string, ignore: bool, continuation: Option<seq<ModeId>>)
    requires Highlight(g, fuel, name, text, ignore, continuation).Ok?
    ensures var h := Highlight(g, fuel, name, text, ignore, continuation).value;
      if h.language == None then !ignore && h.value == [Text(Escape(text))] && h.relevance == 0.0 && h.top == None
      else h.language == Some(name) && h.top.Some?
  {
    if ignore { ScanLegal(g, fuel, Initial(g, g.language(name).value, continuation), text, 0); }
  }

  /** Pending text in another language stands in a span of its name, highlighted where that language was left; it counts if the
      mode does, and where the language is left now is remembered. */
  lemma FlushEmbeds(g: Grammar, fuel: nat, s: State, name: string) returns (h: Highlighted)
    requires s.stack != [] && Flush(g, fuel, s).Ok? && g.mode(Top(s.stack)).subLanguage == Explicit(name) && g.registered(name)
    ensures fuel > 0 && Ok(h) == Highlight(g, fuel - 1, name, s.buffer, true, if name in s.tops then Some(s.tops[name]) else None)
    ensures var t := Flush(g, fuel, s).value;
      && t.out == s.out + [Open(name)] + h.value + [Close] && h.language == Some(name)
      && h.top.Some? && t.tops == s.tops[name := h.top.value]
      && t.relevance == s.relevance + if g.mode(Top(s.stack)).relevance > 0.0 then h.relevance else 0.0
  {
    var left := if name in s.tops then Some(s.tops[name]) else None;
    h := Highlight(g, fuel - 1, name, s.buffer, true, left).value;
    GivenUp(g, fuel - 1, name, s.buffer, true, left);
    assert s.out + ([Open(name)] + h.value + [Close]) == s.out + [Open(name)] + h.value + [Close];
  }
}
