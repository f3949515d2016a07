/** What a reader of the highlighted page sees, and exactly which lexemes are written twice or lost. */
module HighlighterExact {
  import opened Wrappers
  import opened Html
  import opened Highlighter
  import opened HighlighterRoots
  import opened HighlighterProofs

  // ---------- the page ----------

  /** The text content of the rendered value is the input, character for character. */
  lemma PageShowsInput(g: Grammar, langs: set<string>, fuel: nat, name: string, text: string, ignore: bool,
                       continuation: Option<seq<ModeId>>)
    requires Faithful(g, langs) && CleanGrammar(g) && name in langs
    requires continuation == None || RootedChain(g, name, continuation.value)
    ensures var r := Highlight(g, fuel, name, text, ignore, continuation);
      r.Ok? ==> Balanced(r.value.value) && Unescape(Strip(Render(r.value.value), false)) == text
  {
    var r := Highlight(g, fuel, name, text, ignore, continuation);
    HighlightSound(g, Claim(true, langs, true), fuel, name, text, ignore, continuation);
    if r.Ok? {
      StripRender(r.value.value);
      UnescapeEscape(text);
    }
  }

  // ---------- one lexeme, exactly ----------

  /** The condition, read off the flags, under which a lexeme is shown once for each time it is scanned. */
  predicate ShownOnce(g: Grammar, s: State, lex: string)
    requires s.stack != []
  {
    var sub := SubMode(g, g.mode(Top(s.stack)).contains, lex);
    var origin := g.mode(Top(s.stack));
    if sub.Some? then
      var m := g.mode(sub.value);
      lex == "" || !(m.returnBegin && (m.skip || m.excludeBegin))
    else if EndOfMode(g, s.stack, |s.stack| - 1, lex) != Ok(None) then
      lex == "" || !(origin.returnEnd && (origin.skip || origin.excludeEnd))
    else lex != ""
  }

  /** Flushing the current mode shows the pending text unchanged. */
  ghost predicate FlushFaithful(g: Grammar, fuel: nat, s: State) {
    forall t: State :: t.stack == s.stack != [] && t.tops == s.tops && Flush(g, fuel, t).Ok? ==>
      Shown(Flush(g, fuel, t).value) == Shown(t)
  }

  lemma PlainFlushShows(g: Grammar, fuel: nat, t: State)
    requires t.stack != [] && g.mode(Top(t.stack)).subLanguage.NoSubLanguage?
    ensures var r := Flush(g, fuel, t); r.Ok? && Shown(r.value) == Shown(t)
  {
    EscapeEmpty();
    var k, m := Claim(true, {}, false), Top(t.stack);
    var pieces := if g.mode(m).hasKeywords then Keywords(g, m, t.buffer, 0, [], 0.0).0 else [Text(Escape(t.buffer))];
    assert Sound(k, pieces, t.buffer) by {
      PlainSound(k, t.buffer);
      assert t.buffer[..0] == "" && Sound(k, [], "");
      KeywordsSound(g, k, m, t.buffer, 0, [], 0.0);
    }
    TextOfConcat(t.out, pieces);
  }

  lemma FaithfulFlushShows(g: Grammar, langs: set<string>, fuel: nat, t: State)
    requires t.stack != [] && Faithful(g, langs) && Home(g, Claim(true, langs, false), t) && Flush(g, fuel, t).Ok?
    ensures Shown(Flush(g, fuel, t).value) == Shown(t)
  {
    EscapeEmpty();
    FlushedSound(g, Claim(true, langs, false), fuel, t);
    TextOfConcat(t.out, Flushed(g, fuel, t));
  }

  /** Modes without a sub-language flush faithfully whatever their flags, and so does every mode of a faithful language. */
  lemma FlushIsFaithful(g: Grammar, langs: set<string>, fuel: nat, s: State)
    requires s.stack != []
    requires (Faithful(g, langs) && Home(g, Claim(true, langs, false), s)) || g.mode(Top(s.stack)).subLanguage.NoSubLanguage?
    ensures FlushFaithful(g, fuel, s)
  {
    forall t: State | t.stack == s.stack && t.tops == s.tops && Flush(g, fuel, t).Ok?
      ensures Shown(Flush(g, fuel, t).value) == Shown(t)
    {
      if g.mode(Top(s.stack)).subLanguage.NoSubLanguage? { PlainFlushShows(g, fuel, t); } else { FaithfulFlushShows(g, langs, fuel, t); }
    }
  }

  lemma StartShows(g: Grammar, m: ModeId, s: State)
    ensures Shown(Start(g, m, s)) == Shown(s)
  {
    OpensNest([], Names(g, [m]));
    TextOfConcat(s.out, Opens(Names(g, [m])));
  }

  lemma LeaveShows(g: Grammar, s: State, i: nat)
    requires i <= |s.stack|
    ensures Shown(Leave(g, s, i)) == Shown(s)
  {
    var n := |Names(g, s.stack[i..])|;
    ClosesNest(seq(n, _ => ""), n);
    TextOfConcat(s.out, Closes(n));
  }

  lemma BufferShows(s: State, more: string)
    ensures Shown(s.(buffer := s.buffer + more)) == Shown(s) + Escape(more)
  {
    EscapeConcat(s.buffer, more);
  }

  lemma BeginShows(g: Grammar, fuel: nat, s: State, m: ModeId, lex: string)
    requires s.stack != [] && FlushFaithful(g, fuel, s)
    ensures var r := Begin(g, fuel, s, m, lex);
      var mode := g.mode(m);
      r.Ok? ==> Shown(r.value.0) == Shown(s) + Escape(if mode.returnBegin && !mode.skip && !mode.excludeBegin then "" else lex)
  {
    var mode := g.mode(m);
    BufferShows(s, lex);
    var t := s.(buffer := s.buffer + lex);
    EscapeEmpty();
    if mode.skip {
      StartShows(g, m, t);
    } else {
      var pre := if mode.excludeBegin then t else s;
      var f := Flush(g, fuel, pre);
      if f.Ok? {
        BufferShows(f.value, lex);
        assert "" + lex == lex;
        StartShows(g, m, f.value);
        StartShows(g, m, f.value.(buffer := lex));
      }
    }
  }

  lemma PlaceEndShows(g: Grammar, fuel: nat, s: State, lex: string)
    requires s.stack != [] && FlushFaithful(g, fuel, s)
    ensures var r := PlaceEnd(g, fuel, s, lex);
      var mode := g.mode(Top(s.stack));
      r.Ok? ==> Shown(r.value) == Shown(s) + Escape(if mode.returnEnd && !mode.skip && !mode.excludeEnd then "" else lex)
  {
    var mode := g.mode(Top(s.stack));
    BufferShows(s, lex);
    EscapeEmpty();
    if !mode.skip {
      var f := Flush(g, fuel, if mode.returnEnd || mode.excludeEnd then s else s.(buffer := s.buffer + lex));
      if f.Ok? {
        BufferShows(f.value, lex);
        assert "" + lex == lex;
      }
    }
  }

  lemma EndShows(g: Grammar, fuel: nat, s: State, i: nat, lex: string)
    requires i < |s.stack| && FlushFaithful(g, fuel, s)
    ensures var r := End(g, fuel, s, i, lex);
      var mode := g.mode(Top(s.stack));
      r.Ok? ==> Shown(r.value.0) == Shown(s) + Escape(if mode.returnEnd && !mode.skip && !mode.excludeEnd then "" else lex)
  {
    PlaceEndShows(g, fuel, s, lex);
    var placed := PlaceEnd(g, fuel, s, lex);
    if placed.Ok? {
      LeaveShows(g, placed.value, i);
      var starts := g.mode(s.stack[i]).starts;
      if starts.Some? { StartShows(g, starts.value, Leave(g, placed.value, i)); }
    }
  }

  /** What one lexeme adds to the text shown. */
  lemma LexemeShows(g: Grammar, fuel: nat, ignore: bool, s: State, before: string, lex: string) returns (added: string)
    requires s.stack != [] && FlushFaithful(g, fuel, s)
    requires ProcessLexeme(g, fuel, ignore, s, before, lex).Ok?
    ensures var r := ProcessLexeme(g, fuel, ignore, s, before, lex).value;
      && Shown(r.0) == Shown(s) + Escape(before) + Escape(added)
      && (added == lex || (added == "" && r.1 == 0))
      && (ShownOnce(g, s, lex) <==> r.1 <= |lex| && added == lex[..r.1])
  {
    var s1 := s.(buffer := s.buffer + before);
    BufferShows(s, before);
    added := lex;
    assert lex[..0] == "" && lex[..|lex|] == lex;
    var sub := SubMode(g, g.mode(Top(s.stack)).contains, lex);
    var ended := EndOfMode(g, s.stack, |s.stack| - 1, lex);
    if sub.Some? {
      var mode := g.mode(sub.value);
      BeginShows(g, fuel, s1, sub.value, lex);
      if mode.returnBegin && !mode.skip && !mode.excludeBegin { added := ""; }
    } else if ended.value.Some? {
      var mode := g.mode(Top(s.stack));
      EndShows(g, fuel, s1, ended.value.value, lex);
      if mode.returnEnd && !mode.skip && !mode.excludeEnd { added := ""; }
    } else {
      BufferShows(s1, lex);
    }
  }

  /** A lexeme adds to the page exactly the text the scan position moves past, if and only if the flags say so:
      otherwise its text is written and scanned a second time, or a character is skipped. */
  lemma LexemeExact(g: Grammar, fuel: nat, ignore: bool, s: State, before: string, lex: string)
    requires s.stack != [] && FlushFaithful(g, fuel, s)
    ensures var r := ProcessLexeme(g, fuel, ignore, s, before, lex);
      r.Ok? ==> ((r.value.1 <= |lex| && Shown(r.value.0) == Shown(s) + Escape(before) + Escape(lex[..r.value.1]))
                 <==> ShownOnce(g, s, lex))
  {
    var r := ProcessLexeme(g, fuel, ignore, s, before, lex);
    if r.Ok? {
      var added := LexemeShows(g, fuel, ignore, s, before, lex);
      if r.value.1 <= |lex| && added != lex[..r.value.1] {
        assert added == lex != "";
        EscapeSplit(lex, r.value.1);
      }
    }
  }

  lemma EscapeSplit(s: string, n: nat)
    requires n <= |s|
    ensures |Escape(s)| == |Escape(s[..n])| + |Escape(s[n..])|
    ensures n < |s| ==> |Escape(s)| > |Escape(s[..n])|
  {
    assert s[..n] + s[n..] == s;
    EscapeConcat(s[..n], s[n..]);
    EscapeHasNoTag(s[n..]);
  }

  // ---------- the flags matter ----------

  /** `m` is begun by a text that it both excludes and returns, at the top of language `name`, and has no match in it. */
  predicate Duplicates(g: Grammar, name: string, m: ModeId, text: string) {
    && g.language(name) == Some(0) && g.mode(0).subLanguage.NoSubLanguage? && g.mode(m).subLanguage.NoSubLanguage?
    && g.terminator(0, text, 0) == Some(Match(0, |text|)) && g.terminator(m, text, 0) == None
    && SubMode(g, g.mode(0).contains, text) == Some(m)
    && var f := g.mode(m); !f.skip && f.excludeBegin && f.returnBegin
  }

  lemma BeginsAgain(g: Grammar, name: string, m: ModeId, text: string) returns (s: State)
    requires Duplicates(g, name, m, text)
    ensures s.stack == [0, m] && s.buffer == "" && Shown(s) == Escape(text)
    ensures Round(g, 1, true, Initial(g, 0, None), text, 0, Match(0, |text|)) == Ok((s, 0))
  {
    var s0 := Initial(g, 0, None);
    assert Names(g, [0][1..]) == [] && s0.out == [] && Shown(s0) == "" by { EscapeEmpty(); }
    assert text[0..0] == "" && text[0..|text|] == text;
    FlushIsFaithful(g, {}, 1, s0);
    BeginShows(g, 1, s0, m, text);
    PlainFlushShows(g, 1, s0.(buffer := text));
    assert s0.(buffer := s0.buffer + "") == s0;
    s := Begin(g, 1, s0, m, text).value.0;
  }

  lemma FinishShows(g: Grammar, fuel: nat, s: State, text: string)
    requires s.stack != [] && g.mode(Top(s.stack)).subLanguage.NoSubLanguage?
    ensures var r := Finish(g, fuel, s, text, 0); r.Ok? && TextOf(r.value.out) == Shown(s) + Escape(text)
  {
    var t := s.(buffer := s.buffer + text);
    assert text[0..] == text;
    PlainFlushShows(g, fuel, t);
    BufferShows(s, text);
    var f := Flush(g, fuel, t).value;
    assert Shown(f) == TextOf(f.out) by { EscapeEmpty(); }
    var n := |Names(g, s.stack[1..])|;
    ClosesNest(seq(n, _ => ""), n);
    TextOfConcat(f.out, Closes(n));
  }

  /** Such a text is shown twice. */
  lemma ShownTwice(g: Grammar, name: string, m: ModeId, text: string)
    requires Duplicates(g, name, m, text)
    ensures var r := Highlight(g, 1, name, text, true, None);
      r.Ok? && TextOf(r.value.value) == Escape(text) + Escape(text)
  {
    var s := BeginsAgain(g, name, m, text);
    FinishShows(g, 0, s, text);
  }

  /** Such a grammar. */
  function DuplicatingGrammar(): Grammar {
    var plain := Mode(None, 1.0, false, false, false, false, false, false, false, [], None, false, NoSubLanguage);
    Grammar("hljs-",
            (m: ModeId) => if m == 0 then plain.(contains := [1]) else plain.(excludeBegin := true, returnBegin := true),
            (name: string) => Some(0), (name: string) => false,
            (m: ModeId, s: string, from: nat) => if m == 0 && from < |s| then Some(Match(from, |s| - from)) else None,
            (m: ModeId, lex: string) => m == 1, (m: ModeId, lex: string) => false, (m: ModeId, lex: string) => false,
            (m: ModeId, s: string, from: nat) => None, (m: ModeId, w: string) => None, [])
  }

  lemma DuplicatedText()
    ensures var r := Highlight(DuplicatingGrammar(), 1, "x", "a", true, None);
      r.Ok? && TextOf(r.value.value) == "aa"
  {
    var g := DuplicatingGrammar();
    assert SubMode(g, [1], "a") == Some(1);
    ShownTwice(g, "x", 1, "a");
    EscapeOne('a');
  }
}
