/** The step budget of the model only ever decides whether a run finishes, never what it yields. */
module HighlighterFuel {
  import opened Wrappers
  import opened Highlighter

  lemma {:induction false} FlushMore(g: Grammar, fuel: nat, s: State)
    requires s.stack != [] && Flush(g, fuel, s) != Err(OutOfFuel)
    ensures Flush(g, fuel + 1, s) == Flush(g, fuel, s)
    decreases fuel, 2, 0
  {
    match g.mode(Top(s.stack)).subLanguage
    case NoSubLanguage =>
    case Explicit(name) =>
      if g.registered(name) {
        HighlightMore(g, fuel - 1, name, s.buffer, true, if name in s.tops then Some(s.tops[name]) else None);
      }
    case Automatic(names) => HighlightAutoMore(g, fuel - 1, if names == [] then g.allLanguages else names, s.buffer);
  }

  lemma LexemeMore(g: Grammar, fuel: nat, ignore: bool, s: State, before: string, lex: string)
    requires s.stack != [] && ProcessLexeme(g, fuel, ignore, s, before, lex) != Err(OutOfFuel)
    ensures ProcessLexeme(g, fuel + 1, ignore, s, before, lex) == ProcessLexeme(g, fuel, ignore, s, before, lex)
    decreases fuel, 5, 0
  {
    var s1 := s.(buffer := s.buffer + before);
    var sub := SubMode(g, g.mode(Top(s.stack)).contains, lex);
    if sub.Some? {
      var m := g.mode(sub.value);
      if !m.skip { FlushMore(g, fuel, if m.excludeBegin then s1.(buffer := s1.buffer + lex) else s1); }
    } else {
      var ended := EndOfMode(g, s.stack, |s.stack| - 1, lex);
      if ended.Ok? && ended.value.Some? { PlaceEndMore(g, fuel, s1, lex); }
    }
  }

  lemma PlaceEndMore(g: Grammar, fuel: nat, s: State, lex: string)
    requires s.stack != [] && PlaceEnd(g, fuel, s, lex) != Err(OutOfFuel)
    ensures PlaceEnd(g, fuel + 1, s, lex) == PlaceEnd(g, fuel, s, lex)
    decreases fuel, 3, 0
  {
    var m := g.mode(Top(s.stack));
    if !m.skip { FlushMore(g, fuel, if m.returnEnd || m.excludeEnd then s else s.(buffer := s.buffer + lex)); }
  }

  lemma FinishMore(g: Grammar, fuel: nat, s: State, text: string, pos: nat)
    requires s.stack != [] && Finish(g, fuel, s, text, pos) != Err(OutOfFuel)
    ensures Finish(g, fuel + 1, s, text, pos) == Finish(g, fuel, s, text, pos)
    decreases fuel, 3, 0
  {
    FlushMore(g, fuel, s.(buffer := s.buffer + if pos <= |text| then text[pos..] else ""));
  }

  lemma RoundMore(g: Grammar, fuel: nat, ignore: bool, s: State, text: string, pos: nat, found: Match)
    requires s.stack != [] && InRange(found, text, pos) && Round(g, fuel, ignore, s, text, pos, found) != Err(OutOfFuel)
    ensures Round(g, fuel + 1, ignore, s, text, pos, found) == Round(g, fuel, ignore, s, text, pos, found)
    decreases fuel, 6, 0
  {
    LexemeMore(g, fuel, ignore, s, text[pos..found.index], text[found.index..found.index + found.length]);
  }

  lemma {:induction false} ScanMore(g: Grammar, fuel: nat, ignore: bool, s: State, text: string, pos: nat)
    requires s.stack != [] && Scan(g, fuel, ignore, s, text, pos) != Err(OutOfFuel)
    ensures Scan(g, fuel + 1, ignore, s, text, pos) == Scan(g, fuel, ignore, s, text, pos)
    decreases fuel, 7, 0
  {
    match NextMatch(g, s, text, pos)
    case None => FinishMore(g, fuel, s, text, pos);
    case Some(found) =>
      RoundMore(g, fuel, ignore, s, text, pos, found);
      var p := Round(g, fuel, ignore, s, text, pos, found);
      if p.Ok? { ScanMore(g, fuel - 1, ignore, p.value.0, text, p.value.1); }
  }

  /** A run that finishes within a budget yields the same with one unit more, so with any larger budget. */
  lemma {:induction false} HighlightMore(g: Grammar, fuel: nat, name: string, text: string, ignore: bool,
                                         continuation: Option<seq<ModeId>>)
    requires Highlight(g, fuel, name, text, ignore, continuation) != Err(OutOfFuel)
    ensures Highlight(g, fuel + 1, name, text, ignore, continuation) == Highlight(g, fuel, name, text, ignore, continuation)
    decreases fuel, 8, 0
  {
    if g.language(name).Some? {
      ScanMore(g, fuel, ignore, Initial(g, g.language(name).value, continuation), text, 0);
    }
  }

  lemma {:induction false} HighlightAutoMore(g: Grammar, fuel: nat, names: seq<string>, text: string)
    requires HighlightAuto(g, fuel, names, text) != Err(OutOfFuel)
    ensures HighlightAuto(g, fuel + 1, names, text) == HighlightAuto(g, fuel, names, text)
    decreases fuel, 9, |names|
  {
    if names != [] {
      HighlightAutoMore(g, fuel, names[..|names| - 1], text);
      if HighlightAuto(g, fuel, names[..|names| - 1], text).Ok? && g.language(names[|names| - 1]).Some? {
        HighlightMore(g, fuel, names[|names| - 1], text, false, None);
      }
    }
  }

  /** Any two budgets that let the run finish agree on its result. */
  lemma {:induction false} BudgetIrrelevant(g: Grammar, fuel: nat, more: nat, name: string, text: string, ignore: bool,
                                            continuation: Option<seq<ModeId>>)
    requires fuel <= more && Highlight(g, fuel, name, text, ignore, continuation) != Err(OutOfFuel)
    ensures Highlight(g, more, name, text, ignore, continuation) == Highlight(g, fuel, name, text, ignore, continuation)
    decreases more - fuel
  {
    if fuel < more {
      HighlightMore(g, fuel, name, text, ignore, continuation);
      BudgetIrrelevant(g, fuel + 1, more, name, text, ignore, continuation);
    }
  }
}
