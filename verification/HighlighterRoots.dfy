/** The chains of modes that runs build: each starts at the outermost mode of a language, each mode belongs to the one below. */
module HighlighterRoots {
  import opened Wrappers
  import opened Highlighter

  /** A contained mode of `parent`, the mode that it starts when it ends, and so on. */
  ghost predicate StartsPath(g: Grammar, parent: ModeId, path: seq<ModeId>) {
    && path != [] && path[0] in g.mode(parent).contains
    && forall i :: 0 < i < |path| ==> g.mode(path[i - 1]).starts == Some(path[i])
  }

  /** A run can put `child` on top of `parent`. */
  ghost predicate Follows(g: Grammar, parent: ModeId, child: ModeId) {
    exists path :: StartsPath(g, parent, path) && Top(path) == child
  }

  ghost predicate Linked(g: Grammar, chain: seq<ModeId>) {
    chain != [] && forall i :: 0 < i < |chain| ==> Follows(g, chain[i - 1], chain[i])
  }

  /** A chain of modes that a run of language `name` can build. */
  ghost predicate RootedChain(g: Grammar, name: string, chain: seq<ModeId>) {
    Linked(g, chain) && g.language(name) == Some(chain[0])
  }

  /** The chains remembered for sub-languages. */
  ghost predicate Rooted(g: Grammar, tops: map<string, seq<ModeId>>) {
    forall n :: n in tops ==> RootedChain(g, n, tops[n])
  }

  /** The outermost mode stays, and so do good chains. */
  ghost predicate Keeps(g: Grammar, s: State, t: State)
    requires s.stack != []
  {
    && t.stack != [] && t.stack[0] == s.stack[0]
    && (Rooted(g, s.tops) ==> Rooted(g, t.tops))
    && (Linked(g, s.stack) ==> Linked(g, t.stack))
  }

  lemma SubModeContained(g: Grammar, candidates: seq<ModeId>, lex: string)
    ensures var sub := SubMode(g, candidates, lex); sub.Some? ==> sub.value in candidates
  {
  }

  lemma LinkedBegin(g: Grammar, chain: seq<ModeId>, m: ModeId)
    requires Linked(g, chain) && m in g.mode(Top(chain)).contains
    ensures Linked(g, chain + [m])
  {
    assert StartsPath(g, Top(chain), [m]) && Top([m]) == m;
    var longer := chain + [m];
    forall i | 0 < i < |longer| ensures Follows(g, longer[i - 1], longer[i]) {
      if i < |chain| { assert Follows(g, chain[i - 1], chain[i]); }
    }
  }

  lemma LinkedLeave(g: Grammar, chain: seq<ModeId>, i: nat)
    requires Linked(g, chain) && 0 < i <= |chain|
    ensures Linked(g, chain[..i])
  {
    var kept := chain[..i];
    forall j | 0 < j < |kept| ensures Follows(g, kept[j - 1], kept[j]) { assert Follows(g, chain[j - 1], chain[j]); }
  }

  lemma LinkedStart(g: Grammar, chain: seq<ModeId>, i: nat)
    requires Linked(g, chain) && 0 < i < |chain| && g.mode(chain[i]).starts.Some?
    ensures Linked(g, chain[..i] + [g.mode(chain[i]).starts.value])
  {
    var m := g.mode(chain[i]).starts.value;
    assert Follows(g, chain[i - 1], chain[i]);
    var path :| StartsPath(g, chain[i - 1], path) && Top(path) == chain[i];
    assert StartsPath(g, chain[i - 1], path + [m]) && Top(path + [m]) == m;
    LinkedLeave(g, chain, i);
    var next := chain[..i] + [m];
    forall j | 0 < j < |next| ensures Follows(g, next[j - 1], next[j]) {
      if j < i { assert Follows(g, chain[..i][j - 1], chain[..i][j]); }
    }
  }

  lemma {:induction false} FlushKeeps(g: Grammar, fuel: nat, s: State)
    requires s.stack != [] && Flush(g, fuel, s).Ok?
    ensures Keeps(g, s, Flush(g, fuel, s).value)
    decreases fuel, 2
  {
    var m := g.mode(Top(s.stack));
    if Rooted(g, s.tops) && m.subLanguage.Explicit? && g.registered(m.subLanguage.name) {
      var name := m.subLanguage.name;
      HighlightRooted(g, fuel - 1, name, s.buffer, true, if name in s.tops then Some(s.tops[name]) else None);
    }
  }

  lemma LexemeKeeps(g: Grammar, fuel: nat, ignore: bool, s: State, before: string, lex: string)
    requires s.stack != [] && ProcessLexeme(g, fuel, ignore, s, before, lex).Ok?
    ensures Keeps(g, s, ProcessLexeme(g, fuel, ignore, s, before, lex).value.0)
    decreases fuel, 5
  {
    var s1 := s.(buffer := s.buffer + before);
    var sub := SubMode(g, g.mode(Top(s.stack)).contains, lex);
    if sub.Some? {
      var m := g.mode(sub.value);
      if !m.skip { FlushKeeps(g, fuel, if m.excludeBegin then s1.(buffer := s1.buffer + lex) else s1); }
      SubModeContained(g, g.mode(Top(s.stack)).contains, lex);
      if Linked(g, s.stack) { LinkedBegin(g, s.stack, sub.value); }
    } else if EndOfMode(g, s.stack, |s.stack| - 1, lex).value.Some? {
      var i := EndOfMode(g, s.stack, |s.stack| - 1, lex).value.value;
      PlaceEndKeeps(g, fuel, s1, lex);
      if Linked(g, s.stack) {
        LinkedLeave(g, s.stack, i);
        if g.mode(s.stack[i]).starts.Some? { LinkedStart(g, s.stack, i); }
      }
    }
  }

  lemma PlaceEndKeeps(g: Grammar, fuel: nat, s: State, lex: string)
    requires s.stack != [] && PlaceEnd(g, fuel, s, lex).Ok?
    ensures Keeps(g, s, PlaceEnd(g, fuel, s, lex).value)
    decreases fuel, 3
  {
    var m := g.mode(Top(s.stack));
    if !m.skip { FlushKeeps(g, fuel, if m.returnEnd || m.excludeEnd then s else s.(buffer := s.buffer + lex)); }
  }

  lemma {:induction false} ScanKeeps(g: Grammar, fuel: nat, ignore: bool, s: State, text: string, pos: nat)
    requires s.stack != [] && Scan(g, fuel, ignore, s, text, pos).Ok?
    ensures Keeps(g, s, Scan(g, fuel, ignore, s, text, pos).value)
    decreases fuel, 7
  {
    match NextMatch(g, s, text, pos)
    case None => FlushKeeps(g, fuel, s.(buffer := s.buffer + if pos <= |text| then text[pos..] else ""));
    case Some(found) =>
      LexemeKeeps(g, fuel, ignore, s, text[pos..found.index], text[found.index..found.index + found.length]);
      var p := Round(g, fuel, ignore, s, text, pos, found).value;
      ScanKeeps(g, fuel - 1, ignore, p.0, text, p.1);
  }

  /** The modes that a run leaves open start at the outermost mode of its language, as those that it resumed did. So the
      loop that opens their spans again when the sub-language is resumed meets that mode and ends. */
  lemma {:induction false} HighlightRooted(g: Grammar, fuel: nat, name: string, text: string, ignore: bool,
                                           continuation: Option<seq<ModeId>>)
    requires Highlight(g, fuel, name, text, ignore, continuation).Ok?
    requires continuation == None || RootedChain(g, name, continuation.value)
    ensures var top := Highlight(g, fuel, name, text, ignore, continuation).value.top; top.Some? ==> RootedChain(g, name, top.value)
    decreases fuel, 8
  {
    var s := Initial(g, g.language(name).value, continuation);
    if Scan(g, fuel, ignore, s, text, 0).Ok? { ScanKeeps(g, fuel, ignore, s, text, 0); }
  }
}
