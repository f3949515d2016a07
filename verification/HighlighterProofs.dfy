/** Highlighting keeps the text and nests its spans, for every grammar and every answer of its oracles. */
module HighlighterProofs {
  import opened Wrappers
  import opened Html
  import opened Highlighter
  import opened HighlighterRoots

  // ---------- the properties ----------

  /** Everything shown so far: the output without its tags, then the pending text. */
  function Shown(s: State): string {
    TextOf(s.out) + Escape(s.buffer)
  }

  /** No lexeme that begins this mode, or ends it, is written and scanned again as well. */
  predicate NeverDuplicates(mode: Mode) {
    && !(mode.returnBegin && (mode.skip || mode.excludeBegin))
    && !(mode.returnEnd && (mode.skip || mode.excludeEnd))
  }

  predicate Classified(g: Grammar, stack: seq<ModeId>, lex: string)
    requires stack != []
  {
    || SubMode(g, g.mode(Top(stack)).contains, lex).Some?
    || EndOfMode(g, stack, |stack| - 1, lex) != Ok(None)
  }

  /** The innermost mode has no duplicating flags, an empty match of it inside a text begins or ends something on this
      chain, and its sub-languages are among `langs`. */
  ghost predicate FaithfulChain(g: Grammar, langs: set<string>, chain: seq<ModeId>)
    requires chain != []
  {
    && NeverDuplicates(g.mode(Top(chain)))
    && (forall text, from :: EmptyMatch(g, Top(chain), text, from) ==> Classified(g, chain, ""))
    && match g.mode(Top(chain)).subLanguage
       case NoSubLanguage => true
       case Explicit(n) => g.registered(n) ==> n in langs
       case Automatic(ns) => forall n :: n in (if ns == [] then g.allLanguages else ns) && g.language(n).Some? ==> n in langs
  }

  /** Some languages that embed only each other, and behave so on every chain of modes that a run of theirs can build. */
  ghost predicate Faithful(g: Grammar, langs: set<string>) {
    forall n, chain :: n in langs && RootedChain(g, n, chain) ==> FaithfulChain(g, langs, chain)
  }

  predicate EmptyMatch(g: Grammar, m: ModeId, text: string, from: nat) {
    var found := g.terminator(m, text, from);
    found.Some? && InRange(found.value, text, from) && found.value.length == 0 && found.value.index < |text|
  }

  /** Class and language names that cannot be confused with markup. */
  ghost predicate CleanGrammar(g: Grammar) {
    && TagFree(g.classPrefix)
    && (forall m: ModeId :: CleanMode(g.mode(m)))
    && (forall m, w :: g.keyword(m, w).Some? ==> TagFree(g.keyword(m, w).value.0))
    && (forall l :: l in g.allLanguages ==> TagFree(l))
  }

  ghost predicate CleanMode(mode: Mode) {
    && (mode.className.Some? ==> TagFree(mode.className.value))
    && match mode.subLanguage
       case NoSubLanguage => true
       case Explicit(n) => TagFree(n)
       case Automatic(ns) => forall n :: n in ns ==> TagFree(n)
  }

  ghost predicate AllClean(pieces: seq<Piece>) {
    forall p :: p in pieces ==> Clean(p)
  }

  /** Which promises a grammar supports beyond the nesting of spans, which every grammar has: that runs of `langs` keep
      the text, and that names cannot be confused with markup. */
  datatype Claim = Claim(text: bool, langs: set<string>, clean: bool)

  ghost predicate Supports(g: Grammar, k: Claim) {
    && (k.text ==> Faithful(g, k.langs))
    && (k.clean ==> CleanGrammar(g))
  }

  /** What a finished run promises of its value. */
  ghost predicate Sound(k: Claim, value: seq<Piece>, text: string) {
    && Balanced(value)
    && (k.text ==> TextOf(value) == Escape(text))
    && (k.clean ==> AllClean(value))
  }

  /** What every step keeps, once `consumed` has been scanned: the open spans are the named modes above the outermost. */
  ghost predicate Inv(g: Grammar, k: Claim, s: State, consumed: string) {
    && s.stack != []
    && Nest([], s.out) == Some(Names(g, s.stack[1..]))
    && (k.text ==> Shown(s) == Escape(consumed))
    && (k.clean ==> AllClean(s.out))
  }

  /** If the text matters, the chain of modes is one that a run of some of the languages can build, as are the remembered ones. */
  ghost predicate Home(g: Grammar, k: Claim, s: State) {
    k.text ==> Rooted(g, s.tops) && exists n :: n in k.langs && RootedChain(g, n, s.stack)
  }

  lemma HomeKept(g: Grammar, k: Claim, s: State, t: State)
    requires s.stack != [] && Home(g, k, s) && Keeps(g, s, t)
    ensures Home(g, k, t)
  {
    if k.text {
      var n :| n in k.langs && RootedChain(g, n, s.stack);
      assert RootedChain(g, n, t.stack);
    }
  }

  lemma HomeFaithful(g: Grammar, k: Claim, s: State)
    requires Supports(g, k) && Home(g, k, s) && s.stack != []
    ensures k.text ==> FaithfulChain(g, k.langs, s.stack)
  {
  }

  /** A mode that begins here does not duplicate. */
  lemma HomeBegins(g: Grammar, k: Claim, s: State, m: ModeId)
    requires Supports(g, k) && Home(g, k, s) && s.stack != [] && m in g.mode(Top(s.stack)).contains
    ensures k.text ==> NeverDuplicates(g.mode(m))
  {
    if k.text {
      var n :| n in k.langs && RootedChain(g, n, s.stack);
      LinkedBegin(g, s.stack, m);
      assert RootedChain(g, n, s.stack + [m]);
    }
  }

  // ---------- tags ----------

  lemma NamesClean(g: Grammar, stack: seq<ModeId>)
    requires CleanGrammar(g)
    ensures forall n :: n in Names(g, stack) ==> TagFree(n)
  {
    if stack != [] {
      assert CleanMode(g.mode(stack[0]));
      NamesClean(g, stack[1..]);
    }
  }

  lemma {:induction false} OpensNest(open: seq<string>, names: seq<string>)
    ensures Nest(open, Opens(names)) == Some(open + names) && TextOf(Opens(names)) == ""
    decreases |names|
  {
    if names == [] {
      assert open + names == open;
    } else {
      assert Opens(names)[1..] == Opens(names[1..]);
      assert open + [names[0]] + names[1..] == open + names;
      OpensNest(open + [names[0]], names[1..]);
    }
  }

  lemma {:induction false} ClosesNest(open: seq<string>, n: nat)
    requires n <= |open|
    ensures Nest(open, Closes(n)) == Some(open[..|open| - n]) && TextOf(Closes(n)) == ""
  {
    if n > 0 {
      assert Closes(n)[1..] == Closes(n - 1);
      ClosesNest(open[..|open| - 1], n - 1);
      assert open[..|open| - 1][..|open| - n] == open[..|open| - n];
    } else {
      assert open[..|open|] == open;
    }
  }

  lemma SpanSound(c: string, inner: seq<Piece>)
    requires Balanced(inner)
    ensures Balanced(Span(c, inner)) && TextOf(Span(c, inner)) == TextOf(inner)
  {
    BalancedInside([c], inner);
    NestConcat([c], inner, [Close]);
    NestConcat([], [Open(c)], inner + [Close]);
    assert [Open(c)] + inner + [Close] == [Open(c)] + (inner + [Close]);
    TextOfConcat([Open(c)], inner + [Close]);
    TextOfConcat(inner, [Close]);
    assert [Open(c)][1..] == [] && [Close][1..] == [];
    assert Nest([], [Open(c)]) == Some([c]) by { assert [] + [c] == [c]; }
    assert Nest([c], [Close]) == Some([]) by { assert [c][..0] == []; }
  }

  /** Appending balanced pieces changes neither the open spans nor the text before them. */
  lemma AppendBalanced(open: seq<string>, a: seq<Piece>, b: seq<Piece>)
    requires Nest([], a) == Some(open) && Balanced(b)
    ensures Nest([], a + b) == Some(open) && TextOf(a + b) == TextOf(a) + TextOf(b)
  {
    BalancedInside(open, b);
    NestConcat([], a, b);
    TextOfConcat(a, b);
  }

  lemma TextPiece(t: string)
    ensures Balanced([Text(t)]) && TextOf([Text(t)]) == t
  {
    assert [Text(t)][1..] == [];
  }

  /** Escaped text is one sound piece. */
  lemma PlainSound(k: Claim, text: string)
    ensures Sound(k, [Text(Escape(text))], text)
  {
    TextPiece(Escape(text));
    EscapeHasNoTag(text);
  }

  lemma SoundConcat(k: Claim, a: seq<Piece>, b: seq<Piece>, s: string, t: string)
    requires Sound(k, a, s) && Sound(k, b, t)
    ensures Sound(k, a + b, s + t)
  {
    AppendBalanced([], a, b);
    EscapeConcat(s, t);
  }

  lemma SoundSpan(k: Claim, c: string, inner: seq<Piece>, text: string)
    requires Sound(k, inner, text) && (k.clean ==> TagFree(c))
    ensures Sound(k, Span(c, inner), text)
  {
    SpanSound(c, inner);
  }

  // ---------- flushing ----------

  lemma WrappedSound(g: Grammar, k: Claim, m: ModeId, word: string)
    requires k.clean ==> CleanGrammar(g)
    ensures Sound(k, Wrapped(g, m, word), word)
  {
    PlainSound(k, word);
    var hit := g.keyword(m, word);
    if hit.Some? { SoundSpan(k, g.classPrefix + hit.value.0, [Text(Escape(word))], word); }
  }

  lemma ThreeSlices(s: string, a: nat, b: nat, c: nat)
    requires a <= b <= c <= |s|
    ensures s[..a] + (s[a..b] + s[b..c]) == s[..c]
  {
  }

  lemma KeywordRound(g: Grammar, k: Claim, m: ModeId, s: string, from: nat, found: Match, done: seq<Piece>)
    requires k.clean ==> CleanGrammar(g)
    requires from <= |s| && InRange(found, s, from) && Sound(k, done, s[..from])
    ensures Sound(k, done + UpToWord(g, m, s, from, found), s[..found.index + found.length])
  {
    var gap, word := s[from..found.index], s[found.index..found.index + found.length];
    PlainSound(k, gap);
    WrappedSound(g, k, m, word);
    SoundConcat(k, [Text(Escape(gap))], Wrapped(g, m, word), gap, word);
    SoundConcat(k, done, UpToWord(g, m, s, from, found), s[..from], gap + word);
    ThreeSlices(s, from, found.index, found.index + found.length);
  }

  lemma KeywordsEnd(k: Claim, s: string, from: nat, done: seq<Piece>)
    requires from <= |s| && Sound(k, done, s[..from])
    ensures Sound(k, done + [Text(Escape(s[from..]))], s)
  {
    PlainSound(k, s[from..]);
    SoundConcat(k, done, [Text(Escape(s[from..]))], s[..from], s[from..]);
    assert s[..from] + s[from..] == s;
  }

  lemma {:induction false} KeywordsSound(g: Grammar, k: Claim, m: ModeId, s: string, from: nat, done: seq<Piece>, gained: real)
    requires k.clean ==> CleanGrammar(g)
    requires from <= |s| && Sound(k, done, s[..from])
    ensures Sound(k, Keywords(g, m, s, from, done, gained).0, s)
    decreases |s| - from
  {
    match NextWord(g, m, s, from)
    case None => KeywordsEnd(k, s, from, done);
    case Some(found) =>
      var end := found.index + found.length;
      KeywordRound(g, k, m, s, from, found, done);
      KeywordsSound(g, k, m, s, end, done + UpToWord(g, m, s, from, found), gained + Gain(g, m, s[found.index..end]));
  }

  /** What a flush appends to the output. */
  function Flushed(g: Grammar, fuel: nat, s: State): seq<Piece>
    requires s.stack != [] && Flush(g, fuel, s).Ok?
  {
    Flush(g, fuel, s).value.out[|s.out|..]
  }

  lemma {:induction false} FlushedSound(g: Grammar, k: Claim, fuel: nat, s: State)
    requires Supports(g, k) && Home(g, k, s)
    requires s.stack != [] && Flush(g, fuel, s).Ok?
    ensures Flush(g, fuel, s).value.out == s.out + Flushed(g, fuel, s)
    ensures Sound(k, Flushed(g, fuel, s), s.buffer)
    decreases fuel, 2, 1
  {
    PlainSound(k, s.buffer);
    match g.mode(Top(s.stack)).subLanguage
    case NoSubLanguage =>
      EscapeEmpty();
      assert s.buffer[..0] == "" && Sound(k, [], "");
      KeywordsSound(g, k, Top(s.stack), s.buffer, 0, [], 0.0);
      var wrapped := Keywords(g, Top(s.stack), s.buffer, 0, [], 0.0).0;
      assert Flushed(g, fuel, s) == if g.mode(Top(s.stack)).hasKeywords then wrapped else [Text(Escape(s.buffer))];
    case Explicit(name) =>
      if g.registered(name) {
        ExplicitSound(g, k, fuel, s, name);
      } else {
        assert Flushed(g, fuel, s) == [Text(Escape(s.buffer))];
      }
    case Automatic(names) => AutomaticSound(g, k, fuel, s, names);
  }

  lemma {:induction false} ExplicitSound(g: Grammar, k: Claim, fuel: nat, s: State, name: string)
    requires Supports(g, k) && Home(g, k, s)
    requires s.stack != [] && Flush(g, fuel, s).Ok? && g.mode(Top(s.stack)).subLanguage == Explicit(name) && g.registered(name)
    ensures Flush(g, fuel, s).value.out == s.out + Flushed(g, fuel, s)
    ensures Sound(k, Flushed(g, fuel, s), s.buffer)
    decreases fuel, 2, 0
  {
    var cont := if name in s.tops then Some(s.tops[name]) else None;
    HomeFaithful(g, k, s);
    HighlightSound(g, k, fuel - 1, name, s.buffer, true, cont);
    var t := Highlight(g, fuel - 1, name, s.buffer, true, cont).value;
    if k.clean { assert CleanMode(g.mode(Top(s.stack))); }
    SoundSpan(k, name, t.value, s.buffer);
    assert Flushed(g, fuel, s) == Span(name, t.value);
  }

  lemma {:induction false} AutomaticSound(g: Grammar, k: Claim, fuel: nat, s: State, names: seq<string>)
    requires Supports(g, k) && Home(g, k, s)
    requires s.stack != [] && Flush(g, fuel, s).Ok? && g.mode(Top(s.stack)).subLanguage == Automatic(names)
    ensures Flush(g, fuel, s).value.out == s.out + Flushed(g, fuel, s)
    ensures Sound(k, Flushed(g, fuel, s), s.buffer)
    decreases fuel, 2, 0
  {
    var ns := if names == [] then g.allLanguages else names;
    HomeFaithful(g, k, s);
    if k.clean { assert CleanMode(g.mode(Top(s.stack))); }
    HighlightAutoSound(g, k, fuel - 1, ns, s.buffer);
    var t := HighlightAuto(g, fuel - 1, ns, s.buffer).value;
    var c := if t.language.Some? then t.language.value else "undefined";
    SoundSpan(k, c, t.value, s.buffer);
    assert Flushed(g, fuel, s) == Span(c, t.value);
  }

  lemma FlushInv(g: Grammar, k: Claim, fuel: nat, s: State, consumed: string)
    requires Supports(g, k) && Home(g, k, s)
    requires Inv(g, k, s, consumed)
    ensures var r := Flush(g, fuel, s); r.Ok? ==> Inv(g, k, r.value, consumed)
    decreases fuel, 2, 2
  {
    if Flush(g, fuel, s).Ok? {
      FlushedSound(g, k, fuel, s);
      AppendBalanced(Names(g, s.stack[1..]), s.out, Flushed(g, fuel, s));
      EscapeEmpty();
    }
  }

  // ---------- one lexeme ----------

  lemma BufferInv(g: Grammar, k: Claim, s: State, consumed: string, more: string)
    requires Inv(g, k, s, consumed)
    ensures Inv(g, k, s.(buffer := s.buffer + more), consumed + more)
  {
    EscapeConcat(s.buffer, more);
    EscapeConcat(consumed, more);
  }

  lemma StartInv(g: Grammar, k: Claim, m: ModeId, s: State, consumed: string)
    requires Supports(g, k)
    requires Inv(g, k, s, consumed)
    ensures Inv(g, k, Start(g, m, s), consumed)
  {
    var open := Names(g, s.stack[1..]);
    OpensNest(open, Names(g, [m]));
    NestConcat([], s.out, Opens(Names(g, [m])));
    TextOfConcat(s.out, Opens(Names(g, [m])));
    assert (s.stack + [m])[1..] == s.stack[1..] + [m];
    NamesConcat(g, s.stack[1..], [m]);
    if k.clean { NamesClean(g, [m]); }
  }

  lemma ClosedOutput(out: seq<Piece>, kept: seq<string>, gone: seq<string>)
    requires Nest([], out) == Some(kept + gone)
    ensures Nest([], out + Closes(|gone|)) == Some(kept) && TextOf(out + Closes(|gone|)) == TextOf(out)
  {
    ClosesNest(kept + gone, |gone|);
    assert (kept + gone)[..|kept|] == kept;
    NestConcat([], out, Closes(|gone|));
    TextOfConcat(out, Closes(|gone|));
  }

  lemma LeaveInv(g: Grammar, k: Claim, s: State, i: nat, consumed: string)
    requires Supports(g, k)
    requires Inv(g, k, s, consumed) && 0 < i <= |s.stack|
    ensures Inv(g, k, Leave(g, s, i), consumed)
  {
    var kept, gone := s.stack[..i][1..], s.stack[i..];
    assert s.stack[1..] == kept + gone;
    NamesConcat(g, kept, gone);
    ClosedOutput(s.out, Names(g, kept), Names(g, gone));
  }

  lemma BeginInv(g: Grammar, k: Claim, fuel: nat, s: State, m: ModeId, lex: string, consumed: string)
    requires Supports(g, k) && Home(g, k, s) && (k.text ==> NeverDuplicates(g.mode(m)))
    requires Inv(g, k, s, consumed)
    ensures var r := Begin(g, fuel, s, m, lex); r.Ok? ==> Inv(g, k, r.value.0, consumed + lex[..r.value.1])
    decreases fuel, 3
  {
    var r := Begin(g, fuel, s, m, lex);
    var mode := g.mode(m);
    assert lex[..|lex|] == lex && consumed + lex[..0] == consumed;
    BufferInv(g, k, s, consumed, lex);
    if r.Ok? {
      if mode.skip {
        var t := s.(buffer := s.buffer + lex);
        var taken := if k.text then consumed + lex[..r.value.1] else consumed + lex;
        StartInv(g, k, m, t, taken);
      } else {
        var pre := if mode.excludeBegin then s.(buffer := s.buffer + lex) else s;
        var c := if mode.excludeBegin then consumed + lex else consumed;
        FlushInv(g, k, fuel, pre, c);
        var f := Flush(g, fuel, pre).value;
        BufferInv(g, k, f, c, lex);
        assert f.buffer + lex == lex;
        if mode.returnBegin || mode.excludeBegin { StartInv(g, k, m, f, c); } else { StartInv(g, k, m, f.(buffer := lex), c + lex); }
      }
    }
  }

  lemma PlaceEndInv(g: Grammar, k: Claim, fuel: nat, s: State, lex: string, consumed: string)
    requires Supports(g, k) && Home(g, k, s)
    requires Inv(g, k, s, consumed)
    ensures var r := PlaceEnd(g, fuel, s, lex);
      r.Ok? ==> Inv(g, k, r.value, consumed + if g.mode(Top(s.stack)).returnEnd then "" else lex)
    decreases fuel, 3
  {
    var mode := g.mode(Top(s.stack));
    HomeFaithful(g, k, s);
    BufferInv(g, k, s, consumed, lex);
    if !mode.skip {
      var kept := mode.returnEnd || mode.excludeEnd;
      var pre := if kept then s else s.(buffer := s.buffer + lex);
      var c := if kept then consumed else consumed + lex;
      FlushInv(g, k, fuel, pre, c);
      if Flush(g, fuel, pre).Ok? {
        BufferInv(g, k, Flush(g, fuel, pre).value, c, lex);
        assert "" + lex == lex;
      }
    }
    assert consumed + "" == consumed;
  }

  lemma EndInv(g: Grammar, k: Claim, fuel: nat, s: State, i: nat, lex: string, consumed: string)
    requires Supports(g, k) && Home(g, k, s)
    requires Inv(g, k, s, consumed) && i < |s.stack|
    ensures var r := End(g, fuel, s, i, lex); r.Ok? ==> Inv(g, k, r.value.0, consumed + lex[..r.value.1])
    decreases fuel, 4
  {
    PlaceEndInv(g, k, fuel, s, lex, consumed);
    var placed := PlaceEnd(g, fuel, s, lex);
    var taken := consumed + if g.mode(Top(s.stack)).returnEnd then "" else lex;
    if placed.Ok? && i > 0 {
      LeaveInv(g, k, placed.value, i, taken);
      var starts := g.mode(s.stack[i]).starts;
      if starts.Some? { StartInv(g, k, starts.value, Leave(g, placed.value, i), taken); }
      assert lex[..|lex|] == lex;
    }
  }

  /** The part of a lexeme that the scan moves past. */
  function Taken(lex: string, n: nat): string {
    lex[..if n <= |lex| then n else |lex|]
  }

  lemma LexemeInv(g: Grammar, k: Claim, fuel: nat, ignore: bool, s: State, before: string, lex: string, consumed: string)
    requires Supports(g, k) && Home(g, k, s)
    requires Inv(g, k, s, consumed)
    ensures var r := ProcessLexeme(g, fuel, ignore, s, before, lex);
      r.Ok? ==> Inv(g, k, r.value.0, consumed + before + Taken(lex, r.value.1))
    decreases fuel, 5
  {
    var s1 := s.(buffer := s.buffer + before);
    BufferInv(g, k, s, consumed, before);
    var sub := SubMode(g, g.mode(Top(s.stack)).contains, lex);
    if sub.Some? {
      SubModeContained(g, g.mode(Top(s.stack)).contains, lex);
      HomeBegins(g, k, s, sub.value);
      BeginInv(g, k, fuel, s1, sub.value, lex, consumed + before);
    } else {
      var ended := EndOfMode(g, s.stack, |s.stack| - 1, lex);
      if ended.Ok? && ended.value.Some? {
        EndInv(g, k, fuel, s1, ended.value.value, lex, consumed + before);
      } else {
        BufferInv(g, k, s1, consumed + before, lex);
        assert lex[..|lex|] == lex;
      }
    }
  }

  // ---------- whole texts ----------

  function Prefix(text: string, n: nat): string {
    if n <= |text| then text[..n] else text
  }

  lemma FinishSound(g: Grammar, k: Claim, s: State, text: string)
    requires Inv(g, k, s, text) && s.buffer == ""
    ensures Sound(k, s.out + Closes(|Names(g, s.stack[1..])|), text)
  {
    var open := Names(g, s.stack[1..]);
    ClosesNest(open, |open|);
    NestConcat([], s.out, Closes(|open|));
    TextOfConcat(s.out, Closes(|open|));
    assert open[..0] == [];
    EscapeEmpty();
  }

  lemma FinishInv(g: Grammar, k: Claim, fuel: nat, s: State, text: string, pos: nat)
    requires Supports(g, k) && Home(g, k, s)
    requires Inv(g, k, s, Prefix(text, pos))
    ensures var r := Finish(g, fuel, s, text, pos); r.Ok? ==> Sound(k, r.value.out, text)
    decreases fuel, 3
  {
    var rest := if pos <= |text| then text[pos..] else "";
    BufferInv(g, k, s, Prefix(text, pos), rest);
    assert Prefix(text, pos) + rest == text;
    var t := s.(buffer := s.buffer + rest);
    FlushInv(g, k, fuel, t, text);
    if Flush(g, fuel, t).Ok? { FinishSound(g, k, Flush(g, fuel, t).value, text); }
  }

  /** An empty lexeme that begins or ends something leaves the scan position where it is. */
  lemma EmptyAdvance(g: Grammar, fuel: nat, ignore: bool, s: State, before: string)
    requires s.stack != [] && Classified(g, s.stack, "")
    ensures var r := ProcessLexeme(g, fuel, ignore, s, before, ""); r.Ok? ==> r.value.1 == 0
  {
  }

  lemma PrefixStep(text: string, pos: nat, i: nat, n: nat, advance: nat)
    requires pos <= i && i + n <= |text|
    requires advance <= n || i == |text|
    ensures Prefix(text, pos) + text[pos..i] + text[i..i + n][..if advance <= n then advance else n] == Prefix(text, i + advance)
  {
    var m := if advance <= n then advance else n;
    assert text[i..i + n][..m] == text[i..i + m];
    assert text[..pos] + text[pos..i] + text[i..i + m] == text[..i + m];
  }

  lemma AdvanceBound(g: Grammar, fuel: nat, ignore: bool, s: State, before: string, lex: string)
    requires s.stack != []
    ensures var r := ProcessLexeme(g, fuel, ignore, s, before, lex); r.Ok? ==> r.value.1 <= |lex| || lex == ""
  {
  }

  /** The scan position stays in step with the text read: an empty match that begins or ends something skips no character. */
  lemma RoundConsumes(g: Grammar, fuel: nat, ignore: bool, s: State, text: string, pos: nat, found: Match)
    requires s.stack != [] && NextMatch(g, s, text, pos) == Some(found)
    requires EmptyMatch(g, Top(s.stack), text, pos) ==> Classified(g, s.stack, "")
    ensures var before, lex := text[pos..found.index], text[found.index..found.index + found.length];
      var r := ProcessLexeme(g, fuel, ignore, s, before, lex);
      r.Ok? ==> Prefix(text, pos) + before + Taken(lex, r.value.1)
                == Prefix(text, found.index + r.value.1)
  {
    var i, n := found.index, found.length;
    var before, lex := text[pos..i], text[i..i + n];
    AdvanceBound(g, fuel, ignore, s, before, lex);
    if n == 0 && i < |text| {
      assert EmptyMatch(g, Top(s.stack), text, pos);
      assert lex == "";
      EmptyAdvance(g, fuel, ignore, s, before);
    }
    var r := ProcessLexeme(g, fuel, ignore, s, before, lex);
    if r.Ok? { PrefixStep(text, pos, i, n, r.value.1); }
  }

  /** A round from `s`, at match `found`, that leads to `next` with `n` characters of the lexeme consumed. */
  ghost predicate Steps(g: Grammar, fuel: nat, ignore: bool, s: State, text: string, pos: nat, found: Match, next: State, n: nat)
    requires s.stack != []
  {
    && NextMatch(g, s, text, pos) == Some(found)
    && ProcessLexeme(g, fuel, ignore, s, text[pos..found.index], text[found.index..found.index + found.length]) == Ok((next, n))
  }

  /** The text consumed, counted off the scan position. */
  lemma InvAt(g: Grammar, k: Claim, fuel: nat, ignore: bool, s: State, text: string, pos: nat, found: Match, next: State, n: nat)
    requires s.stack != [] && Steps(g, fuel, ignore, s, text, pos, found, next, n)
    requires k.text && EmptyMatch(g, Top(s.stack), text, pos) ==> Classified(g, s.stack, "")
    requires Inv(g, k, next, Prefix(text, pos) + text[pos..found.index] + Taken(text[found.index..found.index + found.length], n))
    ensures Inv(g, k, next, Prefix(text, found.index + n))
  {
    if k.text { RoundConsumes(g, fuel, ignore, s, text, pos, found); }
  }

  lemma StepInv(g: Grammar, k: Claim, fuel: nat, ignore: bool, s: State, text: string, pos: nat, found: Match, next: State, n: nat)
    requires Supports(g, k) && Home(g, k, s)
    requires Inv(g, k, s, Prefix(text, pos))
    requires Steps(g, fuel, ignore, s, text, pos, found, next, n)
    ensures Inv(g, k, next, Prefix(text, found.index + n))
    decreases fuel, 6, 0
  {
    LexemeInv(g, k, fuel, ignore, s, text[pos..found.index], text[found.index..found.index + found.length], Prefix(text, pos));
    HomeFaithful(g, k, s);
    InvAt(g, k, fuel, ignore, s, text, pos, found, next, n);
  }

  lemma StepHome(g: Grammar, k: Claim, fuel: nat, ignore: bool, s: State, text: string, pos: nat, found: Match, next: State, n: nat)
    requires s.stack != [] && Home(g, k, s) && Steps(g, fuel, ignore, s, text, pos, found, next, n)
    ensures Home(g, k, next)
  {
    LexemeKeeps(g, fuel, ignore, s, text[pos..found.index], text[found.index..found.index + found.length]);
    HomeKept(g, k, s, next);
  }

  lemma RoundSteps(g: Grammar, fuel: nat, ignore: bool, s: State, text: string, pos: nat, found: Match, next: State, to: nat)
    requires s.stack != [] && NextMatch(g, s, text, pos) == Some(found)
    requires Round(g, fuel, ignore, s, text, pos, found) == Ok((next, to))
    ensures to >= found.index && Steps(g, fuel, ignore, s, text, pos, found, next, to - found.index)
  {
  }

  /** Every round of the scanning loop keeps the invariant, in step with the scan position. */
  lemma RoundInv(g: Grammar, k: Claim, fuel: nat, ignore: bool, s: State, text: string, pos: nat, found: Match, next: State, to: nat)
    requires Supports(g, k) && Home(g, k, s)
    requires Inv(g, k, s, Prefix(text, pos))
    requires NextMatch(g, s, text, pos) == Some(found) && Round(g, fuel, ignore, s, text, pos, found) == Ok((next, to))
    ensures Inv(g, k, next, Prefix(text, to)) && Home(g, k, next)
    decreases fuel, 6, 1
  {
    RoundSteps(g, fuel, ignore, s, text, pos, found, next, to);
    StepInv(g, k, fuel, ignore, s, text, pos, found, next, to - found.index);
    StepHome(g, k, fuel, ignore, s, text, pos, found, next, to - found.index);
  }

  lemma {:induction false} ScanSound(g: Grammar, k: Claim, fuel: nat, ignore: bool, s: State, text: string, pos: nat)
    requires Supports(g, k) && Home(g, k, s)
    requires Inv(g, k, s, Prefix(text, pos))
    ensures var r := Scan(g, fuel, ignore, s, text, pos); r.Ok? ==> Sound(k, r.value.out, text)
    decreases fuel, 7
  {
    match NextMatch(g, s, text, pos)
    case None => FinishInv(g, k, fuel, s, text, pos);
    case Some(found) =>
      var p := Round(g, fuel, ignore, s, text, pos, found);
      if p.Ok? && fuel > 0 {
        RoundInv(g, k, fuel, ignore, s, text, pos, found, p.value.0, p.value.1);
        ScanSound(g, k, fuel - 1, ignore, p.value.0, text, p.value.1);
      }
  }

  lemma InitialInv(g: Grammar, k: Claim, root: ModeId, continuation: Option<seq<ModeId>>)
    requires Supports(g, k)
    ensures Inv(g, k, Initial(g, root, continuation), "")
  {
    var s := Initial(g, root, continuation);
    OpensNest([], Names(g, s.stack[1..]));
    assert [] + Names(g, s.stack[1..]) == Names(g, s.stack[1..]);
    if k.clean { NamesClean(g, s.stack[1..]); }
  }

  lemma InitialHome(g: Grammar, k: Claim, name: string, continuation: Option<seq<ModeId>>)
    requires g.language(name).Some?
    requires k.text ==> name in k.langs && (continuation == None || RootedChain(g, name, continuation.value))
    ensures Home(g, k, Initial(g, g.language(name).value, continuation))
  {
    if k.text { assert RootedChain(g, name, Initial(g, g.language(name).value, continuation).stack); }
  }

  /** Whatever the grammar and its oracles, a finished run has balanced spans; for faithful languages they hold exactly the
      escaped input, through sub-languages, the illegal-lexeme fallback, and continuations such as runs leave. */
  lemma {:induction false} HighlightSound(g: Grammar, k: Claim, fuel: nat, name: string, text: string, ignore: bool,
                                          continuation: Option<seq<ModeId>>)
    requires Supports(g, k)
    requires k.text ==> name in k.langs && (continuation == None || RootedChain(g, name, continuation.value))
    ensures var r := Highlight(g, fuel, name, text, ignore, continuation); r.Ok? ==> Sound(k, r.value.value, text)
    decreases fuel, 8
  {
    if g.language(name).Some? {
      InitialInv(g, k, g.language(name).value, continuation);
      InitialHome(g, k, name, continuation);
      assert text[..0] == "";
      ScanSound(g, k, fuel, ignore, Initial(g, g.language(name).value, continuation), text, 0);
      PlainSound(k, text);
    }
  }

  lemma {:induction false} HighlightAutoSound(g: Grammar, k: Claim, fuel: nat, names: seq<string>, text: string)
    requires Supports(g, k)
    requires k.clean ==> forall n :: n in names ==> TagFree(n)
    requires k.text ==> forall n :: n in names && g.language(n).Some? ==> n in k.langs
    ensures var r := HighlightAuto(g, fuel, names, text);
      r.Ok? ==> Sound(k, r.value.value, text) && (k.clean && r.value.language.Some? ==> TagFree(r.value.language.value))
    decreases fuel, 9, |names|
  {
    PlainSound(k, text);
    if names != [] {
      HighlightAutoSound(g, k, fuel, names[..|names| - 1], text);
      if g.language(names[|names| - 1]).Some? { HighlightSound(g, k, fuel, names[|names| - 1], text, false, None); }
    }
  }

  /** The language `i` was tried and won: it scores, beats all before it, and none behind it scores higher. */
  ghost predicate Best(g: Grammar, fuel: nat, names: seq<string>, text: string, i: nat, best: Highlighted) {
    && i < |names| && g.language(names[i]).Some?
    && var t := Highlight(g, fuel, names[i], text, false, None);
      && t.Ok? && best == t.value.(language := Some(names[i])) && best.relevance > 0.0
      && forall j :: 0 <= j < i ==> Below(g, fuel, names[j], text, best.relevance)
  }

  ghost predicate Below(g: Grammar, fuel: nat, name: string, text: string, relevance: real) {
    g.language(name).Some? ==> var t := Highlight(g, fuel, name, text, false, None); t.Ok? && t.value.relevance < relevance
  }

  ghost predicate NotAbove(g: Grammar, fuel: nat, name: string, text: string, relevance: real) {
    g.language(name).Some? ==> var t := Highlight(g, fuel, name, text, false, None); t.Ok? && t.value.relevance <= relevance
  }

  /** Automatic highlighting picks a language of highest relevance, the first such, or leaves the text plain if none scores. */
  lemma {:induction false} AutoPicksBest(g: Grammar, fuel: nat, names: seq<string>, text: string)
    requires HighlightAuto(g, fuel, names, text).Ok?
    ensures var best := HighlightAuto(g, fuel, names, text).value;
      && (forall i :: 0 <= i < |names| ==> NotAbove(g, fuel, names[i], text, best.relevance))
      && (best == Highlighted(0.0, [Text(Escape(text))], None, None) || exists i: nat :: Best(g, fuel, names, text, i, best))
    decreases |names|
  {
    if names != [] {
      var n := |names| - 1;
      var last := names[n];
      AutoPicksBest(g, fuel, names[..n], text);
      var before := HighlightAuto(g, fuel, names[..n], text).value;
      var best := HighlightAuto(g, fuel, names, text).value;
      forall i | 0 <= i < n ensures NotAbove(g, fuel, names[i], text, before.relevance) { assert names[..n][i] == names[i]; }
      if best == before {
        if i: nat :| Best(g, fuel, names[..n], text, i, best) {
          forall j | 0 <= j < i ensures Below(g, fuel, names[j], text, best.relevance) { assert names[..n][j] == names[j]; }
          assert Best(g, fuel, names, text, i, best);
        }
      } else {
        assert before.relevance >= 0.0;
        assert Best(g, fuel, names, text, n, best);
      }
    }
  }
}
