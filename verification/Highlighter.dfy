/**
 highlight.js's scanner: text goes in, nested spans of escaped text come out.

 Every regular expression of the original is an arbitrary oracle held in a `Grammar`;
 what is modelled is what the scanner does with the matches.
 */
module Highlighter {
  import opened Wrappers
  import opened Html

  type ModeId = nat

  datatype SubLanguage = NoSubLanguage | Explicit(name: string) | Automatic(names: seq<string>)

  /** A compiled mode. `contains`, `starts` and the sub-language refer to other modes and languages by name. */
  datatype Mode = Mode(
    className: Option<string>, relevance: real,
    skip: bool, excludeBegin: bool, returnBegin: bool, excludeEnd: bool, returnEnd: bool,
    endsWithParent: bool, endsParent: bool,
    contains: seq<ModeId>, starts: Option<ModeId>,
    hasKeywords: bool, subLanguage: SubLanguage)

  datatype Match = Match(index: nat, length: nat)

  /** The registered languages and the answers of their regular expressions. */
  datatype Grammar = Grammar(
    classPrefix: string,
    mode: ModeId -> Mode,
    language: string -> Option<ModeId>,
    registered: string -> bool,
    terminator: (ModeId, string, nat) -> Option<Match>,
    begins: (ModeId, string) -> bool,
    ends: (ModeId, string) -> bool,
    illegal: (ModeId, string) -> bool,
    lexeme: (ModeId, string, nat) -> Option<Match>,
    keyword: (ModeId, string) -> Option<(string, real)>,
    allLanguages: seq<string>)

  /** What `exec` on a global regular expression guarantees of a match; any other answer is read as none. */
  predicate InRange(m: Match, s: string, from: nat) {
    from <= m.index && m.index + m.length <= |s|
  }

  /** Why a run stops: an illegal lexeme, a lexeme ending the outermost mode (where the original
      dereferences `undefined`), a name that is no language, or the step budget of the model. */
  datatype Trouble = Illegal | RootEnded | UnknownLanguage | OutOfFuel

  /** The variables of one call of `highlight`: output `L`, pending text `k`, the chain of modes
      from the language itself to `E`, the relevance `B` and the saved continuations `x`. */
  datatype State = State(
    out: seq<Piece>, buffer: string, stack: seq<ModeId>, relevance: real, tops: map<string, seq<ModeId>>)

  datatype Highlighted = Highlighted(
    relevance: real, value: seq<Piece>, language: Option<string>, top: Option<seq<ModeId>>)

  function Top(stack: seq<ModeId>): ModeId
    requires stack != []
  {
    stack[|stack| - 1]
  }

  // ---------- modes ----------

  /** `o`: the first contained mode that begins with the lexeme. */
  function SubMode(g: Grammar, candidates: seq<ModeId>, lex: string): (r: Option<ModeId>) {
    if candidates == [] then None
    else if g.begins(candidates[0], lex) then Some(candidates[0])
    else SubMode(g, candidates[1..], lex)
  }

  /** The position a mode that ends at `i` hands over to: up through every mode that also ends its parent. */
  function Climb(g: Grammar, stack: seq<ModeId>, i: nat): (r: nat)
    requires i < |stack|
    ensures r <= i
  {
    if g.mode(stack[i]).endsParent && i > 0 then Climb(g, stack, i - 1) else i
  }

  /** `u`: the position of the outermost mode that the lexeme ends. The outermost mode has no end pattern. */
  function EndOfMode(g: Grammar, stack: seq<ModeId>, i: nat, lex: string): (r: Result<Option<nat>, Trouble>)
    requires i < |stack|
    ensures r.Ok? && r.value.Some? ==> r.value.value <= i
  {
    if i > 0 && g.ends(stack[i], lex) then Ok(Some(Climb(g, stack, i)))
    else if !g.mode(stack[i]).endsWithParent then Ok(None)
    else if i == 0 then Err(RootEnded)
    else EndOfMode(g, stack, i - 1, lex)
  }

  /** The classes of the named modes in a chain. */
  function Names(g: Grammar, stack: seq<ModeId>): seq<string> {
    if stack == [] then []
    else (if g.mode(stack[0]).className.Some? then [g.classPrefix + g.mode(stack[0]).className.value] else [])
         + Names(g, stack[1..])
  }

  function Opens(names: seq<string>): seq<Piece> {
    seq(|names|, i requires 0 <= i < |names| => Open(names[i]))
  }

  lemma NamesConcat(g: Grammar, a: seq<ModeId>, b: seq<ModeId>)
    ensures Names(g, a + b) == Names(g, a) + Names(g, b)
  {
    if a == [] {
      assert a + b == b;
    } else {
      assert (a + b)[1..] == a[1..] + b;
      NamesConcat(g, a[1..], b);
    }
  }

  function Closes(n: nat): seq<Piece> {
    seq(n, _ => Close)
  }

  function Relevance(g: Grammar, stack: seq<ModeId>): real {
    if stack == [] then 0.0
    else Relevance(g, stack[..|stack| - 1]) + (if g.mode(Top(stack)).skip then 0.0 else g.mode(Top(stack)).relevance)
  }

  function Span(className: string, inner: seq<Piece>): seq<Piece> {
    [Open(className)] + inner + [Close]
  }

  // ---------- flushing the pending text ----------

  /** One lexeme of the pending text, in a span if it is a keyword. */
  function Wrapped(g: Grammar, m: ModeId, word: string): seq<Piece> {
    var hit := g.keyword(m, word);
    if hit.None? then [Text(Escape(word))] else Span(g.classPrefix + hit.value.0, [Text(Escape(word))])
  }

  /** The next lexeme of the current mode's keyword expression. An empty match, on which the original loops for ever, counts as none. */
  function NextWord(g: Grammar, m: ModeId, s: string, from: nat): (r: Option<Match>)
    ensures r.Some? ==> InRange(r.value, s, from) && r.value.length > 0
  {
    var found := g.lexeme(m, s, from);
    if found.Some? && InRange(found.value, s, from) && found.value.length > 0 then found else None
  }

  /** The text up to a word, and the word. */
  function UpToWord(g: Grammar, m: ModeId, s: string, from: nat, found: Match): seq<Piece>
    requires InRange(found, s, from)
  {
    [Text(Escape(s[from..found.index]))] + Wrapped(g, m, s[found.index..found.index + found.length])
  }

  function Gain(g: Grammar, m: ModeId, word: string): real {
    if g.keyword(m, word).Some? then g.keyword(m, word).value.1 else 0.0
  }


  /** `h`: `done` and what follows from position `from` on, with its keywords wrapped and their relevance added up. */
  function Keywords(g: Grammar, m: ModeId, s: string, from: nat, done: seq<Piece>, gained: real): (seq<Piece>, real)
    requires from <= |s|
    decreases |s| - from
  {
    match NextWord(g, m, s, from)
    case None => (done + [Text(Escape(s[from..]))], gained)
    case Some(found) =>
      var end := found.index + found.length;
      Keywords(g, m, s, end, done + UpToWord(g, m, s, from, found), gained + Gain(g, m, s[found.index..end]))
  }

  /** `b`: the pending text moves to the output, highlighted by the current mode. */
  function Flush(g: Grammar, fuel: nat, s: State): (r: Result<State, Trouble>)
    requires s.stack != []
    ensures r.Ok? ==> r.value.buffer == "" && r.value.stack == s.stack
    decreases fuel, 2, 0
  {
    var m := g.mode(Top(s.stack));
    match m.subLanguage
    case NoSubLanguage =>
      if !m.hasKeywords then Ok(s.(out := s.out + [Text(Escape(s.buffer))], buffer := ""))
      else
        var (pieces, r) := Keywords(g, Top(s.stack), s.buffer, 0, [], 0.0);
        Ok(s.(out := s.out + pieces, buffer := "", relevance := s.relevance + r))
    case Explicit(name) =>
      if !g.registered(name) then Ok(s.(out := s.out + [Text(Escape(s.buffer))], buffer := ""))
      else if fuel == 0 then Err(OutOfFuel)
      else
        match Highlight(g, fuel - 1, name, s.buffer, true, if name in s.tops then Some(s.tops[name]) else None) {
          case Err(e) => Err(e)
          case Ok(t) =>
            Ok(s.(out := s.out + Span(name, t.value), buffer := "",
                  relevance := if m.relevance > 0.0 then s.relevance + t.relevance else s.relevance,
                  tops := if t.top.Some? then s.tops[name := t.top.value] else s.tops))
        }
    case Automatic(names) =>
      if fuel == 0 then Err(OutOfFuel)
      else
        match HighlightAuto(g, fuel - 1, if names == [] then g.allLanguages else names, s.buffer)
        case Err(e) => Err(e)
        case Ok(t) =>
          Ok(s.(out := s.out + Span(if t.language.Some? then t.language.value else "undefined", t.value), buffer := "",
                relevance := if m.relevance > 0.0 then s.relevance + t.relevance else s.relevance))
  }

  // ---------- one lexeme ----------

  /** `v`: a mode goes on the chain, its span opened. */
  function Start(g: Grammar, m: ModeId, s: State): (r: State)
    ensures r.buffer == s.buffer && r.stack == s.stack + [m]
  {
    s.(out := s.out + Opens(Names(g, [m])), stack := s.stack + [m])
  }

  /** The modes from position `i` up leave the chain, their spans closed. */
  function Leave(g: Grammar, s: State, i: nat): (r: State)
    requires i <= |s.stack|
    ensures r.buffer == s.buffer && r.stack == s.stack[..i]
  {
    var gone := s.stack[i..];
    s.(out := s.out + Closes(|Names(g, gone)|), stack := s.stack[..i], relevance := s.relevance + Relevance(g, gone))
  }

  /** The lexeme begins contained mode `m`; the second result is how far the scan position moves past the match. */
  function Begin(g: Grammar, fuel: nat, s: State, m: ModeId, lex: string): (r: Result<(State, nat), Trouble>)
    requires s.stack != []
    ensures r.Ok? ==> r.value.0.stack == s.stack + [m]
    ensures r.Ok? ==> r.value.1 == if g.mode(m).returnBegin then 0 else |lex|
    decreases fuel, 3, 0
  {
    var mode := g.mode(m);
    var advance := if mode.returnBegin then 0 else |lex|;
    if mode.skip then Ok((Start(g, m, s.(buffer := s.buffer + lex)), advance))
    else
      match Flush(g, fuel, if mode.excludeBegin then s.(buffer := s.buffer + lex) else s)
      case Err(e) => Err(e)
      case Ok(flushed) => Ok((Start(g, m, if mode.returnBegin || mode.excludeBegin then flushed else flushed.(buffer := lex)), advance))
  }

  /** Where the text of an ending lexeme goes, by the flags of the innermost mode. */
  function PlaceEnd(g: Grammar, fuel: nat, s: State, lex: string): (r: Result<State, Trouble>)
    requires s.stack != []
    ensures r.Ok? ==> r.value.stack == s.stack
    decreases fuel, 3, 0
  {
    var mode := g.mode(Top(s.stack));
    if mode.skip then Ok(s.(buffer := s.buffer + lex))
    else
      match Flush(g, fuel, if mode.returnEnd || mode.excludeEnd then s else s.(buffer := s.buffer + lex))
      case Err(e) => Err(e)
      case Ok(f) => Ok(if mode.excludeEnd then f.(buffer := lex) else f)
  }

  /** The lexeme ends the modes from position `i` up; the outermost of them may start another. */
  function End(g: Grammar, fuel: nat, s: State, i: nat, lex: string): (r: Result<(State, nat), Trouble>)
    requires i < |s.stack|
    ensures r.Ok? ==> i > 0
    ensures r.Ok? ==> r.value.0.stack == s.stack[..i] + (var t := g.mode(s.stack[i]).starts; if t.Some? then [t.value] else [])
    ensures r.Ok? ==> r.value.1 == if g.mode(Top(s.stack)).returnEnd then 0 else |lex|
    decreases fuel, 4, 0
  {
    match PlaceEnd(g, fuel, s, lex)
    case Err(e) => Err(e)
    case Ok(placed) =>
      if i == 0 then Err(RootEnded)
      else
        var left := Leave(g, placed, i);
        var starts := g.mode(s.stack[i]).starts;
        Ok((if starts.Some? then Start(g, starts.value, left) else left,
            if g.mode(Top(s.stack)).returnEnd then 0 else |lex|))
  }

  /** `m`: the text before a match, then its lexeme. */
  function ProcessLexeme(g: Grammar, fuel: nat, ignoreIllegals: bool, s: State, before: string, lex: string)
    : (r: Result<(State, nat), Trouble>)
    requires s.stack != []
    ensures r.Ok? ==> r.value.0.stack != []
    decreases fuel, 5, 0
  {
    var s1 := s.(buffer := s.buffer + before);
    var sub := SubMode(g, g.mode(Top(s.stack)).contains, lex);
    if sub.Some? then Begin(g, fuel, s1, sub.value, lex)
    else
      match EndOfMode(g, s.stack, |s.stack| - 1, lex)
      case Err(e) => Err(e)
      case Ok(Some(i)) => End(g, fuel, s1, i, lex)
      case Ok(None) =>
        if !ignoreIllegals && g.illegal(Top(s.stack), lex) then Err(Illegal)
        else Ok((s1.(buffer := s1.buffer + lex), if lex == "" then 1 else |lex|))
  }

  // ---------- whole texts ----------

  /** The next match of the current mode's terminators, from position `pos` on. */
  function NextMatch(g: Grammar, s: State, text: string, pos: nat): (r: Option<Match>)
    requires s.stack != []
    ensures r.Some? ==> InRange(r.value, text, pos)
  {
    var found := g.terminator(Top(s.stack), text, pos);
    if found.Some? && InRange(found.value, text, pos) then found else None
  }

  /** After the last match: the rest of the text is flushed and every open span closed. */
  function Finish(g: Grammar, fuel: nat, s: State, text: string, pos: nat): (r: Result<State, Trouble>)
    requires s.stack != []
    ensures r.Ok? ==> r.value.stack == s.stack
    decreases fuel, 3, 0
  {
    match Flush(g, fuel, s.(buffer := s.buffer + if pos <= |text| then text[pos..] else ""))
    case Err(e) => Err(e)
    case Ok(f) => Ok(f.(out := f.out + Closes(|Names(g, s.stack[1..])|)))
  }

  /** One round of the scanning loop: the text up to a match and its lexeme; the result holds the next scan position. */
  function Round(g: Grammar, fuel: nat, ignoreIllegals: bool, s: State, text: string, pos: nat, found: Match)
    : (r: Result<(State, nat), Trouble>)
    requires s.stack != [] && InRange(found, text, pos)
    ensures r.Ok? ==> r.value.0.stack != []
    decreases fuel, 6, 0
  {
    match ProcessLexeme(g, fuel, ignoreIllegals, s, text[pos..found.index], text[found.index..found.index + found.length])
    case Err(e) => Err(e)
    case Ok(p) => Ok((p.0, found.index + p.1))
  }

  /** The scanning loop from position `pos`. */
  function Scan(g: Grammar, fuel: nat, ignoreIllegals: bool, s: State, text: string, pos: nat): (r: Result<State, Trouble>)
    requires s.stack != []
    ensures r.Ok? ==> r.value.stack != []
    decreases fuel, 7, 0
  {
    match NextMatch(g, s, text, pos)
    case None => Finish(g, fuel, s, text, pos)
    case Some(found) =>
      match Round(g, fuel, ignoreIllegals, s, text, pos, found)
      case Err(e) => Err(e)
      case Ok(next) =>
        if fuel == 0 then Err(OutOfFuel) else Scan(g, fuel - 1, ignoreIllegals, next.0, text, next.1)
  }

  function Initial(g: Grammar, root: ModeId, continuation: Option<seq<ModeId>>): (s: State)
    ensures s.stack != []
  {
    var stack := if continuation.Some? && continuation.value != [] then continuation.value else [root];
    State(Opens(Names(g, stack[1..])), "", stack, 0.0, map[])
  }

  /** `f`: highlights `text` as language `name`, resuming the modes of `continuation`. */
  function Highlight(g: Grammar, fuel: nat, name: string, text: string, ignoreIllegals: bool,
                     continuation: Option<seq<ModeId>>): (r: Result<Highlighted, Trouble>)
    ensures r.Err? ==> r.error != Illegal
    decreases fuel, 8, 0
  {
    var root := g.language(name);
    if root.None? then Err(UnknownLanguage)
    else
      match Scan(g, fuel, ignoreIllegals, Initial(g, root.value, continuation), text, 0)
      case Ok(s) => Ok(Highlighted(s.relevance, s.out, Some(name), Some(s.stack)))
      case Err(Illegal) => Ok(Highlighted(0.0, [Text(Escape(text))], None, None))
      case Err(e) => Err(e)
  }

  /** `g`: the most relevant of several languages, the earliest of equals, plain text if none scores. */
  function HighlightAuto(g: Grammar, fuel: nat, names: seq<string>, text: string): (r: Result<Highlighted, Trouble>)
    decreases fuel, 9, |names|
  {
    if names == [] then Ok(Highlighted(0.0, [Text(Escape(text))], None, None))
    else
      match HighlightAuto(g, fuel, names[..|names| - 1], text)
      case Err(e) => Err(e)
      case Ok(best) =>
        var last := names[|names| - 1];
        if g.language(last).None? then Ok(best)
        else
          match Highlight(g, fuel, last, text, false, None)
          case Err(e) => Err(e)
          case Ok(t) => Ok(if t.relevance > best.relevance then t.(language := Some(last)) else best)
  }
}
