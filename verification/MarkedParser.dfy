/** marked's `Parser`: a flat list of block tokens, popped one by one, becomes nested HTML. */
module MarkedParser {
  import opened Wrappers

  /** The tokens the lexer produces; `Table` stands for its token as a whole. */
  datatype Token =
    | Space | Hr | Heading(text: string, depth: nat) | Code(text: string, lang: Option<string>, escaped: bool)
    | Table(cells: seq<seq<string>>) | Html(text: string) | Paragraph(text: string) | Text(text: string)
    | QuoteStart | QuoteEnd
    | ListStart(ordered: bool, start: string) | ListEnd
    | ItemStart(task: bool, checked: bool, loose: bool) | ItemEnd
    | Other(kind: string)

  /** The renderer, which users may replace, and the inline lexer. The inline lexer and the heading slugger carry a state
      from one call to the next. */
  datatype Renderer<!S> = Renderer(
    inline: (S, string) -> (string, S),
    heading: (S, string, nat) -> (string, S),
    table: (S, seq<seq<string>>) -> (string, S),
    code: (string, Option<string>, bool) -> string,
    html: string -> string,
    paragraph: string -> string,
    blockquote: string -> string,
    list: (string, bool, string) -> string,
    listitem: string -> string,
    checkbox: bool -> string,
    hr: string)

  /** A closing token is missing, so the code reads a property of `undefined`; or the token's type is not known. */
  datatype Trouble = Underflow | UnknownToken

  predicate Opens(t: Token) {
    t.QuoteStart? || t.ListStart? || t.ItemStart?
  }

  predicate Closes(t: Token) {
    t.QuoteEnd? || t.ListEnd? || t.ItemEnd?
  }

  function CloserOf(open: Token): Token
    requires Opens(open)
  {
    match open
    case QuoteStart => QuoteEnd
    case ListStart(_, _) => ListEnd
    case ItemStart(_, _, _) => ItemEnd
  }

  predicate Tight(open: Token) {
    open.ItemStart? && !open.loose
  }

  /** What a container's content becomes; a to-do item's checkbox precedes it. */
  function Prefix<S>(r: Renderer<S>, open: Token): string
    requires Opens(open)
  {
    if open.ItemStart? && open.task then r.checkbox(open.checked) else ""
  }

  function Wrap<S>(r: Renderer<S>, open: Token, content: string): string
    requires Opens(open)
  {
    match open
    case QuoteStart => r.blockquote(content)
    case ListStart(ordered, start) => r.list(content, ordered, start)
    case ItemStart(_, _, _) => r.listitem(content)
  }

  predicate IsPlain(t: Token) {
    !Opens(t) && !Closes(t) && !t.Text? && !t.Other?
  }

  function RenderPlain<S>(r: Renderer<S>, s: S, t: Token): (string, S)
    requires IsPlain(t)
  {
    match t
    case Space => ("", s)
    case Hr => (r.hr, s)
    case Heading(text, depth) => r.heading(s, text, depth)
    case Code(text, lang, escaped) => (r.code(text, lang, escaped), s)
    case Table(cells) => r.table(s, cells)
    case Html(text) => (r.html(text), s)
    case Paragraph(text) => var (html, s1) := r.inline(s, text); (r.paragraph(html), s1)
  }

  // ---------- the parser ----------

  /** The loop of `parseText`: the texts that follow are joined to `acc` by newlines. */
  function JoinTexts(acc: string, toks: seq<Token>): (r: (string, seq<Token>))
    ensures |r.1| <= |toks|
    decreases |toks|
  {
    if toks != [] && toks[0].Text? then JoinTexts(acc + "\n" + toks[0].text, toks[1..]) else (acc, toks)
  }

  datatype Parsed<S> = Parsed(html: string, state: S, rest: seq<Token>)

  /** `parseText`, the current token being the first */
  function ParseText<S>(r: Renderer<S>, s: S, toks: seq<Token>): (p: Parsed<S>)
    requires toks != [] && toks[0].Text?
    ensures |p.rest| < |toks|
  {
    var (text, rest) := JoinTexts(toks[0].text, toks[1..]);
    var (html, s1) := r.inline(s, text);
    Parsed(html, s1, rest)
  }

  /** `tok`, the current token being the first. Asked to be silent, it answers `undefined` for a token of unknown type. */
  function Tok<S>(r: Renderer<S>, silent: bool, s: S, toks: seq<Token>): (p: Result<Parsed<S>, Trouble>)
    requires toks != []
    ensures p.Ok? ==> |p.value.rest| < |toks|
    decreases |toks|, 0
  {
    var t := toks[0];
    if t.Text? then
      var p := ParseText(r, s, toks);
      Ok(p.(html := r.paragraph(p.html)))
    else if Opens(t) then
      match Body(r, silent, t, s, Prefix(r, t), toks[1..])
      case Err(e) => Err(e)
      case Ok(p) => Ok(p.(html := Wrap(r, t, p.html)))
    else if IsPlain(t) then
      var (html, s1) := RenderPlain(r, s, t);
      Ok(Parsed(html, s1, toks[1..]))
    else if silent then Ok(Parsed("undefined", s, toks[1..]))
    else Err(UnknownToken)
  }

  /** The loop over a container's content, `acc` being rendered so far. */
  function Body<S>(r: Renderer<S>, silent: bool, open: Token, s: S, acc: string, toks: seq<Token>): (p: Result<Parsed<S>, Trouble>)
    requires Opens(open)
    ensures p.Ok? ==> |p.value.rest| < |toks|
    decreases |toks|, 1
  {
    if toks == [] then Err(Underflow)
    else if toks[0] == CloserOf(open) then Ok(Parsed(acc, s, toks[1..]))
    else if Tight(open) && toks[0].Text? then
      var p := ParseText(r, s, toks);
      Body(r, silent, open, p.state, acc + p.html, p.rest)
    else
      match Tok(r, silent, s, toks)
      case Err(e) => Err(e)
      case Ok(p) => Body(r, silent, open, p.state, acc + p.html, p.rest)
  }

  /** The loop of `parse`. */
  function Parse<S>(r: Renderer<S>, silent: bool, s: S, acc: string, toks: seq<Token>): Result<Parsed<S>, Trouble>
    decreases |toks|
  {
    if toks == [] then Ok(Parsed(acc, s, []))
    else
      match Tok(r, silent, s, toks)
      case Err(e) => Err(e)
      case Ok(p) => Parse(r, silent, p.state, acc + p.html, p.rest)
  }

  // ---------- what it accepts ----------

  /** Every closing token closes the innermost open container, and all are closed; `due` are the closing tokens awaited. */
  predicate Balanced(toks: seq<Token>, due: seq<Token>)
    decreases |toks|
  {
    if toks == [] then due == []
    else if Opens(toks[0]) then Balanced(toks[1..], due + [CloserOf(toks[0])])
    else if Closes(toks[0]) then due != [] && due[|due| - 1] == toks[0] && Balanced(toks[1..], due[..|due| - 1])
    else !toks[0].Other? && Balanced(toks[1..], due)
  }

  lemma JoinBalanced(acc: string, toks: seq<Token>, due: seq<Token>)
    ensures Balanced(toks, due) <==> Balanced(JoinTexts(acc, toks).1, due)
    decreases |toks|
  {
    if toks != [] && toks[0].Text? { JoinBalanced(acc + "\n" + toks[0].text, toks[1..], due); }
  }

  lemma {:induction false} TokBalanced<S>(r: Renderer<S>, s: S, toks: seq<Token>, due: seq<Token>)
    requires toks != [] && (due != [] ==> toks[0] != due[|due| - 1])
    ensures var p := Tok(r, false, s, toks);
      if p.Ok? then Balanced(toks, due) <==> Balanced(p.value.rest, due) else !Balanced(toks, due)
    decreases |toks|, 0
  {
    var t := toks[0];
    if t.Text? {
      JoinBalanced(t.text, toks[1..], due);
    } else if Opens(t) {
      BodyBalanced(r, t, s, Prefix(r, t), toks[1..], due);
    }
  }

  lemma {:induction false} BodyBalanced<S>(r: Renderer<S>, open: Token, s: S, acc: string, toks: seq<Token>, due: seq<Token>)
    requires Opens(open)
    ensures var p := Body(r, false, open, s, acc, toks);
      var all := due + [CloserOf(open)];
      if p.Ok? then Balanced(toks, all) <==> Balanced(p.value.rest, due) else !Balanced(toks, all)
    decreases |toks|, 1
  {
    var all := due + [CloserOf(open)];
    assert all[..|all| - 1] == due;
    if toks != [] && toks[0] != CloserOf(open) {
      if Tight(open) && toks[0].Text? {
        var p := ParseText(r, s, toks);
        JoinBalanced(toks[0].text, toks[1..], all);
        BodyBalanced(r, open, p.state, acc + p.html, p.rest, due);
      } else {
        TokBalanced(r, s, toks, all);
        var p := Tok(r, false, s, toks);
        if p.Ok? { BodyBalanced(r, open, p.value.state, acc + p.value.html, p.value.rest, due); }
      }
    }
  }

  /** `parse` succeeds exactly on the token lists whose containers match. */
  lemma {:induction false} ParsesIffBalanced<S>(r: Renderer<S>, s: S, acc: string, toks: seq<Token>)
    ensures Parse(r, false, s, acc, toks).Ok? <==> Balanced(toks, [])
    decreases |toks|
  {
    if toks != [] {
      TokBalanced(r, s, toks, []);
      var p := Tok(r, false, s, toks);
      if p.Ok? { ParsesIffBalanced(r, p.value.state, acc + p.value.html, p.value.rest); }
    }
  }
}
