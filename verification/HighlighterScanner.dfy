/** The scanner as highlight.js runs it: one object per call, its variables updated in place. */
module HighlighterScanner {
  import opened Wrappers
  import opened Html
  import opened Highlighter
  import opened HighlighterSpans

  /** The innermost mode leaves the chain. */
  function LeaveTop(g: Grammar, s: State): State
    requires s.stack != []
  {
    var m := g.mode(Top(s.stack));
    s.(out := s.out + (if m.className.Some? then [Close] else []), stack := s.stack[..|s.stack| - 1],
       relevance := s.relevance + (if m.skip then 0.0 else m.relevance))
  }

  lemma LeaveOne(g: Grammar, s: State, i: nat)
    requires i < |s.stack|
    ensures Leave(g, LeaveTop(g, s), i) == Leave(g, s, i)
  {
    var n := |s.stack| - 1;
    var gone, rest := s.stack[i..], s.stack[i..n];
    assert s.stack[..n][..i] == s.stack[..i] && s.stack[..n][i..] == rest;
    assert gone[..|gone| - 1] == rest && Top(gone) == Top(s.stack);
    assert Leave(g, LeaveTop(g, s), i).out == Leave(g, s, i).out by {
      assert gone == rest + [s.stack[n]];
      ClosesSnoc(g, rest, s.stack[n]);
      AppendTwice(s.out, if g.mode(s.stack[n]).className.Some? then [Close] else [], Closes(|Names(g, rest)|));
    }
  }

  lemma ClosesSnoc(g: Grammar, rest: seq<ModeId>, m: ModeId)
    ensures Closes(|Names(g, rest + [m])|) == (if g.mode(m).className.Some? then [Close] else []) + Closes(|Names(g, rest)|)
  {
    NamesConcat(g, rest, [m]);
    OneName(g, m);
  }

  lemma AppendTwice(out: seq<Piece>, first: seq<Piece>, second: seq<Piece>)
    ensures (out + first) + second == out + (first + second)
  {
  }

  /** One call of `highlight`. */
  class Scanner {
    const g: Grammar
    var out: seq<Piece>
    var buffer: string
    var stack: seq<ModeId>
    var relevance: real
    var tops: map<string, seq<ModeId>>

    ghost function Now(): State
      reads this
    {
      State(out, buffer, stack, relevance, tops)
    }

    constructor (g: Grammar, root: ModeId, continuation: Option<seq<ModeId>>)
      ensures this.g == g && Now() == Initial(g, root, continuation)
    {
      this.g := g;
      buffer, relevance, tops := "", 0.0, map[];
      var chain := if continuation.Some? && continuation.value != [] then continuation.value else [root];
      var spans: seq<Piece>, i := [], |chain|;
      assert chain[|chain|..] == [];
      while i > 1
        invariant 1 <= i <= |chain|
        invariant spans == Opens(Names(g, chain[i..]))
      {
        i := i - 1;
        assert chain[i..][1..] == chain[i + 1..];
        if g.mode(chain[i]).className.Some? {
          spans := [Open(g.classPrefix + g.mode(chain[i]).className.value)] + spans;
        }
      }
      stack, out := chain, spans;
    }

    /** `o` */
    method FindSubMode(lex: string) returns (r: Option<ModeId>)
      requires stack != []
      ensures r == SubMode(g, g.mode(Top(stack)).contains, lex)
    {
      var children := g.mode(Top(stack)).contains;
      for i := 0 to |children|
        invariant SubMode(g, children, lex) == SubMode(g, children[i..], lex)
      {
        if g.begins(children[i], lex) { return Some(children[i]); }
        assert children[i..][1..] == children[i + 1..];
      }
      return None;
    }

    /** `u` */
    method FindEnd(lex: string) returns (r: Result<Option<nat>, Trouble>)
      requires stack != []
      ensures r == EndOfMode(g, stack, |stack| - 1, lex)
    {
      var i := |stack| - 1;
      while true
        invariant 0 <= i < |stack|
        invariant EndOfMode(g, stack, i, lex) == EndOfMode(g, stack, |stack| - 1, lex)
        decreases i
      {
        if i > 0 && g.ends(stack[i], lex) {
          ghost var from := i;
          while g.mode(stack[i]).endsParent && i > 0
            invariant 0 <= i < |stack| && Climb(g, stack, i) == Climb(g, stack, from)
          {
            i := i - 1;
          }
          return Ok(Some(i));
        }
        if !g.mode(stack[i]).endsWithParent { return Ok(None); }
        if i == 0 { return Err(RootEnded); }
        i := i - 1;
      }
    }

    /** `b`, in a mode without a sub-language: `h` */
    method ProcessKeywords()
      requires stack != [] && g.mode(Top(stack)).subLanguage.NoSubLanguage?
      modifies this
      ensures forall fuel :: Flush(g, fuel, old(Now())) == Ok(Now())
    {
      var m := g.mode(Top(stack));
      if !m.hasKeywords {
        out := out + [Text(Escape(buffer))];
      } else {
        var pieces, gained, _, _ := RunKeywords(g, Top(stack), buffer);
        out, relevance := out + pieces, relevance + gained;
      }
      buffer := "";
    }

    /** `d`, for a language that is named */
    method ProcessNamed(fuel: nat, name: string) returns (trouble: Option<Trouble>)
      requires stack != [] && g.mode(Top(stack)).subLanguage == Explicit(name)
      modifies this
      ensures var r := Flush(g, fuel, old(Now()));
        if r.Ok? then trouble == None && Now() == r.value else trouble == Some(r.error)
      decreases fuel, 2, 0
    {
      if !g.registered(name) {
        out, buffer := out + [Text(Escape(buffer))], "";
        return None;
      }
      if fuel == 0 { return Some(OutOfFuel); }
      var t := RunHighlight(g, fuel - 1, name, buffer, true, if name in tops then Some(tops[name]) else None);
      if t.Err? { return Some(t.error); }
      if g.mode(Top(stack)).relevance > 0.0 { relevance := relevance + t.value.relevance; }
      if t.value.top.Some? { tops := tops[name := t.value.top.value]; }
      out, buffer := out + Span(name, t.value.value), "";
      return None;
    }

    /** `d`, for some languages or all of them */
    method ProcessAny(fuel: nat, names: seq<string>) returns (trouble: Option<Trouble>)
      requires stack != [] && g.mode(Top(stack)).subLanguage == Automatic(names)
      modifies this
      ensures var r := Flush(g, fuel, old(Now()));
        if r.Ok? then trouble == None && Now() == r.value else trouble == Some(r.error)
      decreases fuel, 2, 0
    {
      if fuel == 0 { return Some(OutOfFuel); }
      var t := RunHighlightAuto(g, fuel - 1, if names == [] then g.allLanguages else names, buffer);
      if t.Err? { return Some(t.error); }
      if g.mode(Top(stack)).relevance > 0.0 { relevance := relevance + t.value.relevance; }
      out, buffer := out + Span(if t.value.language.Some? then t.value.language.value else "undefined", t.value.value), "";
      return None;
    }

    /** `b` */
    method ProcessBuffer(fuel: nat) returns (trouble: Option<Trouble>)
      requires stack != []
      modifies this
      ensures var r := Flush(g, fuel, old(Now()));
        if r.Ok? then trouble == None && Now() == r.value else trouble == Some(r.error)
      decreases fuel, 2, 1
    {
      match g.mode(Top(stack)).subLanguage {
        case NoSubLanguage =>
          ProcessKeywords();
          trouble := None;
        case Explicit(name) => trouble := ProcessNamed(fuel, name);
        case Automatic(names) => trouble := ProcessAny(fuel, names);
      }
    }

    /** `v` */
    method StartNewMode(m: ModeId)
      modifies this
      ensures Now() == Start(g, m, old(Now()))
    {
      OneName(g, m);
      if g.mode(m).className.Some? {
        out := out + [Open(g.classPrefix + g.mode(m).className.value)];
      }
      stack := stack + [m];
    }

    /** The loop that pops every mode down to position `i`. */
    method PopModes(i: nat)
      requires i <= |stack|
      modifies this
      ensures Now() == Leave(g, old(Now()), i)
    {
      while |stack| > i
        invariant i <= |stack| && Leave(g, Now(), i) == Leave(g, old(Now()), i)
      {
        ghost var before := Now();
        var m := g.mode(Top(stack));
        LeaveOne(g, before, i);
        if m.className.Some? { out := out + [Close]; }
        if !m.skip { relevance := relevance + m.relevance; }
        stack := stack[..|stack| - 1];
        assert Now() == LeaveTop(g, before);
      }
      assert stack[i..] == [] && stack[..i] == stack && out + Closes(0) == out;
    }

    /** The branch of `m` for a lexeme that begins mode `m` */
    method BeginMode(fuel: nat, m: ModeId, lex: string) returns (r: Result<nat, Trouble>)
      requires stack != []
      modifies this
      ensures var spec := Begin(g, fuel, old(Now()), m, lex);
        if spec.Ok? then r == Ok(spec.value.1) && Now() == spec.value.0 else r == Err(spec.error)
      decreases fuel, 3, 0
    {
      var mode := g.mode(m);
      if mode.skip {
        buffer := buffer + lex;
      } else {
        if mode.excludeBegin { buffer := buffer + lex; }
        var trouble := ProcessBuffer(fuel);
        if trouble.Some? { return Err(trouble.value); }
        if !mode.returnBegin && !mode.excludeBegin { buffer := lex; }
      }
      StartNewMode(m);
      return Ok(if mode.returnBegin then 0 else |lex|);
    }

    /** The text of a lexeme that ends the current mode */
    method PlaceEndText(fuel: nat, lex: string) returns (trouble: Option<Trouble>)
      requires stack != []
      modifies this
      ensures var spec := PlaceEnd(g, fuel, old(Now()), lex);
        if spec.Ok? then trouble == None && Now() == spec.value else trouble == Some(spec.error)
      decreases fuel, 3, 0
    {
      var origin := g.mode(Top(stack));
      if origin.skip {
        buffer := buffer + lex;
        return None;
      }
      if !(origin.returnEnd || origin.excludeEnd) { buffer := buffer + lex; }
      trouble := ProcessBuffer(fuel);
      if trouble == None && origin.excludeEnd { buffer := lex; }
    }

    /** The branch of `m` for a lexeme that ends the modes from position `i` up */
    method EndModes(fuel: nat, i: nat, lex: string) returns (r: Result<nat, Trouble>)
      requires i < |stack|
      modifies this
      ensures var spec := End(g, fuel, old(Now()), i, lex);
        if spec.Ok? then r == Ok(spec.value.1) && Now() == spec.value.0 else r == Err(spec.error)
      decreases fuel, 4, 0
    {
      var origin, starts := g.mode(Top(stack)), g.mode(stack[i]).starts;
      var trouble := PlaceEndText(fuel, lex);
      if trouble.Some? { return Err(trouble.value); }
      PopModes(i);
      if stack == [] { return Err(RootEnded); }
      if starts.Some? { StartNewMode(starts.value); }
      return Ok(if origin.returnEnd then 0 else |lex|);
    }

    /** `m`, called with a lexeme */
    method ProcessMatch(fuel: nat, ignoreIllegals: bool, before: string, lex: string) returns (r: Result<nat, Trouble>)
      requires stack != []
      modifies this
      ensures var spec := ProcessLexeme(g, fuel, ignoreIllegals, old(Now()), before, lex);
        if spec.Ok? then r == Ok(spec.value.1) && Now() == spec.value.0 else r == Err(spec.error)
      decreases fuel, 5, 0
    {
      buffer := buffer + before;
      var sub := FindSubMode(lex);
      if sub.Some? {
        r := BeginMode(fuel, sub.value, lex);
        return;
      }
      var ended := FindEnd(lex);
      if ended.Err? { return Err(ended.error); }
      if ended.value.Some? {
        r := EndModes(fuel, ended.value.value, lex);
        return;
      }
      if !ignoreIllegals && g.illegal(Top(stack), lex) { return Err(Illegal); }
      buffer := buffer + lex;
      return Ok(if lex == "" then 1 else |lex|);
    }

    /** The last loop of the scan: one closing tag for each named mode above the outermost. */
    method CloseSpans()
      requires stack != []
      modifies this`out
      ensures out == old(out) + Closes(|Names(g, stack[1..])|)
    {
      var i := |stack| - 1;
      assert Closes(|Names(g, stack[|stack|..])|) == [];
      while i > 0
        invariant 0 <= i < |stack|
        invariant out == old(out) + Closes(|Names(g, stack[i + 1..])|)
      {
        assert stack[i..] == [stack[i]] + stack[i + 1..];
        if g.mode(stack[i]).className.Some? {
          out := out + [Close];
          assert Closes(|Names(g, stack[i + 1..])|) + [Close] == Closes(|Names(g, stack[i..])|);
        }
        i := i - 1;
      }
    }

    /** The scanning loop and what follows it; every round costs one unit of fuel. */
    method Run(fuel: nat, ignoreIllegals: bool, text: string) returns (trouble: Option<Trouble>)
      requires stack != []
      modifies this
      ensures var r := Scan(g, fuel, ignoreIllegals, old(Now()), text, 0);
        if r.Ok? then trouble == None && Now() == r.value else trouble == Some(r.error)
      decreases fuel, 7, 0
    {
      var pos: nat, left: nat := 0, fuel;
      while true
        invariant stack != [] && left <= fuel
        invariant Scan(g, left, ignoreIllegals, Now(), text, pos) == Scan(g, fuel, ignoreIllegals, old(Now()), text, 0)
        decreases left
      {
        ghost var was := Now();
        var found := NextMatch(g, State(out, buffer, stack, relevance, tops), text, pos);
        if found.None? {
          ScanLast(g, left, ignoreIllegals, was, text, pos);
          trouble := Last(left, text, pos);
          return;
        }
        ScanRound(g, left, ignoreIllegals, was, text, pos, found.value);
        var next := OneRound(left, ignoreIllegals, text, pos, found.value);
        if next.Err? { return Some(next.error); }
        if left == 0 { return Some(OutOfFuel); }
        pos, left := next.value, left - 1;
      }
    }

    method OneRound(fuel: nat, ignoreIllegals: bool, text: string, pos: nat, found: Match) returns (r: Result<nat, Trouble>)
      requires stack != [] && InRange(found, text, pos)
      modifies this
      ensures var spec := Round(g, fuel, ignoreIllegals, old(Now()), text, pos, found);
        if spec.Ok? then r == Ok(spec.value.1) && Now() == spec.value.0 else r == Err(spec.error)
      decreases fuel, 6, 0
    {
      r := ProcessMatch(fuel, ignoreIllegals, text[pos..found.index], text[found.index..found.index + found.length]);
      if r.Ok? { r := Ok(found.index + r.value); }
    }

    /** `m` called without a lexeme, and the closing tags */
    method Last(fuel: nat, text: string, pos: nat) returns (trouble: Option<Trouble>)
      requires stack != []
      modifies this
      ensures var spec := Finish(g, fuel, old(Now()), text, pos);
        if spec.Ok? then trouble == None && Now() == spec.value else trouble == Some(spec.error)
      decreases fuel, 3, 0
    {
      buffer := buffer + if pos <= |text| then text[pos..] else "";
      trouble := ProcessBuffer(fuel);
      if trouble == None { CloseSpans(); }
    }
  }

  /** One round of the scanning loop, unfolded. */
  lemma ScanRound(g: Grammar, fuel: nat, ignore: bool, s: State, text: string, pos: nat, found: Match)
    requires s.stack != [] && NextMatch(g, s, text, pos) == Some(found)
    ensures var r := Round(g, fuel, ignore, s, text, pos, found);
      Scan(g, fuel, ignore, s, text, pos) ==
        if r.Err? then Err(r.error)
        else if fuel == 0 then Err(OutOfFuel)
        else Scan(g, fuel - 1, ignore, r.value.0, text, r.value.1)
  {
  }

  /** The end of the scanning loop, unfolded. */
  lemma ScanLast(g: Grammar, fuel: nat, ignore: bool, s: State, text: string, pos: nat)
    requires s.stack != [] && NextMatch(g, s, text, pos) == None
    ensures Scan(g, fuel, ignore, s, text, pos) == Finish(g, fuel, s, text, pos)
  {
  }

  lemma OneName(g: Grammar, m: ModeId)
    ensures Opens(Names(g, [m])) ==
      if g.mode(m).className.Some? then [Open(g.classPrefix + g.mode(m).className.value)] else []
  {
    assert [m][1..] == [];
    assert Names(g, [m]) == if g.mode(m).className.Some? then [g.classPrefix + g.mode(m).className.value] else [];
  }

  lemma KeywordStep(g: Grammar, m: ModeId, s: string, from: nat, done: seq<Piece>, gained: real, found: Match, word: string)
    requires from <= |s| && NextWord(g, m, s, from) == Some(found) && word == s[found.index..found.index + found.length]
    ensures Keywords(g, m, s, from, done, gained)
      == Keywords(g, m, s, found.index + found.length, done + UpToWord(g, m, s, from, found), gained + Gain(g, m, word))
  {
  }

  /** `h`: the keywords among the words `ws` of `s`, and nothing else, stand in spans. */
  method RunKeywords(g: Grammar, m: ModeId, s: string) returns (pieces: seq<Piece>, gained: real, ghost ws: seq<Match>, ghost at: seq<nat>)
    ensures Words(g, m, s, ws) && Marked(g, m, s, ws, pieces, at) && gained == Score(g, m, s, ws)
    ensures (pieces, gained) == Keywords(g, m, s, 0, [], 0.0)
  {
    pieces, gained := [], 0.0;
    var t := 0;
    ghost var result := Keywords(g, m, s, 0, [], 0.0);
    var next := NextWord(g, m, s, 0);
    while next.Some?
      invariant t <= |s| && next == NextWord(g, m, s, t) && Keywords(g, m, s, t, pieces, gained) == result
      decreases |s| - t
    {
      var found := next.value;
      var word := s[found.index..found.index + found.length];
      KeywordStep(g, m, s, t, pieces, gained, found, word);
      pieces, gained := pieces + UpToWord(g, m, s, t, found), gained + Gain(g, m, word);
      t := found.index + found.length;
      next := NextWord(g, m, s, t);
    }
    pieces := pieces + [Text(Escape(s[t..]))];
    ws, at := KeywordsMarked(g, m, s);
  }

  /** `f`, with its catch of illegal lexemes */
  method RunHighlight(g: Grammar, fuel: nat, name: string, text: string, ignoreIllegals: bool,
                      continuation: Option<seq<ModeId>>) returns (r: Result<Highlighted, Trouble>)
    ensures r == Highlight(g, fuel, name, text, ignoreIllegals, continuation)
    decreases fuel, 8, 0
  {
    var root := g.language(name);
    if root.None? { return Err(UnknownLanguage); }
    var s := new Scanner(g, root.value, continuation);
    var trouble := s.Run(fuel, ignoreIllegals, text);
    if trouble == None {
      return Ok(Highlighted(s.relevance, s.out, Some(name), Some(s.stack)));
    } else if trouble.value == Illegal {
      return Ok(Highlighted(0.0, [Text(Escape(text))], None, None));
    }
    return Err(trouble.value);
  }

  /** `g` */
  method RunHighlightAuto(g: Grammar, fuel: nat, names: seq<string>, text: string) returns (r: Result<Highlighted, Trouble>)
    ensures r == HighlightAuto(g, fuel, names, text)
    decreases fuel, 9, 0
  {
    var best := Highlighted(0.0, [Text(Escape(text))], None, None);
    assert names[..|names|] == names;
    for i := 0 to |names|
      invariant HighlightAuto(g, fuel, names[..i], text) == Ok(best)
    {
      assert names[..i + 1][..i] == names[..i];
      if g.language(names[i]).Some? {
        var t := RunHighlight(g, fuel, names[i], text, false, None);
        if t.Err? {
          AutoFails(g, fuel, names, i + 1, text);
          return Err(t.error);
        }
        if t.value.relevance > best.relevance { best := t.value.(language := Some(names[i])); }
      }
    }
    return Ok(best);
  }

  /** A failing language fails the whole choice. */
  lemma AutoFails(g: Grammar, fuel: nat, names: seq<string>, i: nat, text: string)
    requires i <= |names| && HighlightAuto(g, fuel, names[..i], text).Err?
    ensures HighlightAuto(g, fuel, names, text) == HighlightAuto(g, fuel, names[..i], text)
    decreases |names| - i
  {
    if i == |names| {
      assert names[..i] == names;
    } else {
      assert names[..i + 1][..i] == names[..i];
      AutoFails(g, fuel, names, i + 1, text);
    }
  }
}
