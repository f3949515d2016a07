/** The parser renders the block tree its tokens came from. */
module MarkedTrees {
  import opened Wrappers
  import opened MarkedParser

  /** A block: a plain token, a piece of text, a quotation, a list, or an item of one. Any container may stand in any other. */
  datatype Block =
    | Plain(token: Token)
    | Words(text: string)
    | Quote(blocks: seq<Block>)
    | Listing(ordered: bool, start: string, blocks: seq<Block>)
    | Item(task: bool, checked: bool, loose: bool, blocks: seq<Block>)

  predicate ValidBlock(b: Block)
    decreases b, 0
  {
    match b
    case Plain(t) => IsPlain(t)
    case Words(_) => true
    case Quote(blocks) => ValidBlocks(blocks)
    case Listing(_, _, blocks) => ValidBlocks(blocks)
    case Item(_, _, _, blocks) => ValidBlocks(blocks)
  }

  predicate ValidBlocks(bs: seq<Block>)
    decreases bs, 1
  {
    bs == [] || (ValidBlock(bs[0]) && ValidBlocks(bs[1..]))
  }

  /** The tokens of a block, a container between its opening and closing token. */
  function Flatten(b: Block): (toks: seq<Token>)
    requires ValidBlock(b)
    ensures toks != [] && (toks[0].Text? <==> b.Words?)
    decreases b, 0
  {
    match b
    case Plain(t) => [t]
    case Words(text) => [Text(text)]
    case Quote(blocks) => [QuoteStart] + FlattenAll(blocks) + [QuoteEnd]
    case Listing(ordered, start, blocks) => [ListStart(ordered, start)] + FlattenAll(blocks) + [ListEnd]
    case Item(task, checked, loose, blocks) => [ItemStart(task, checked, loose)] + FlattenAll(blocks) + [ItemEnd]
  }

  function FlattenAll(bs: seq<Block>): (toks: seq<Token>)
    requires ValidBlocks(bs)
    ensures toks == [] <==> bs == []
    decreases bs, 1
  {
    if bs == [] then [] else Flatten(bs[0]) + FlattenAll(bs[1..])
  }

  // ---------- rendering the tree ----------

  /** The texts at the head of some siblings, joined by newlines. */
  function Joined(bs: seq<Block>): string
    requires bs != [] && bs[0].Words?
  {
    if |bs| > 1 && bs[1].Words? then bs[0].text + "\n" + Joined(bs[1..]) else bs[0].text
  }

  function AfterWords(bs: seq<Block>): (r: seq<Block>)
    ensures |r| <= |bs| && (bs != [] && bs[0].Words? ==> |r| < |bs|)
    ensures r == bs[|bs| - |r|..]
    ensures ValidBlocks(bs) ==> ValidBlocks(r)
    ensures r != [] ==> !r[0].Words?
  {
    if bs != [] && bs[0].Words? then AfterWords(bs[1..]) else bs
  }

  /** A block as its author meant it, by the renderer's functions alone. A to-do item begins with its checkbox. */
  function RenderBlock<S>(r: Renderer<S>, s: S, b: Block): (string, S)
    requires ValidBlock(b) && !b.Words?
    decreases b, 0
  {
    match b
    case Plain(Space) => ("", s)
    case Plain(Hr) => (r.hr, s)
    case Plain(Heading(text, depth)) => r.heading(s, text, depth)
    case Plain(Code(text, lang, escaped)) => (r.code(text, lang, escaped), s)
    case Plain(Table(cells)) => r.table(s, cells)
    case Plain(Html(text)) => (r.html(text), s)
    case Plain(Paragraph(text)) => (r.paragraph(r.inline(s, text).0), r.inline(s, text).1)
    case Quote(blocks) =>
      var (content, s1) := RenderAll(r, true, s, blocks);
      (r.blockquote(content), s1)
    case Listing(ordered, start, blocks) =>
      var (content, s1) := RenderAll(r, true, s, blocks);
      (r.list(content, ordered, start), s1)
    case Item(task, checked, loose, blocks) =>
      var (content, s1) := RenderAll(r, loose, s, blocks);
      (r.listitem(if task then r.checkbox(checked) + content else content), s1)
  }

  /** Siblings, left to right. Adjacent texts are one paragraph or, directly in an item of a tight list, bare inline text. */
  function RenderAll<S>(r: Renderer<S>, paragraphs: bool, s: S, bs: seq<Block>): (string, S)
    requires ValidBlocks(bs)
    decreases bs, 1
  {
    if bs == [] then ("", s)
    else if bs[0].Words? then
      var (html, s1) := r.inline(s, Joined(bs));
      var (rest, s2) := RenderAll(r, paragraphs, s1, AfterWords(bs));
      ((if paragraphs then r.paragraph(html) else html) + rest, s2)
    else
      var (html, s1) := RenderBlock(r, s, bs[0]);
      var (rest, s2) := RenderAll(r, paragraphs, s1, bs[1..]);
      (html + rest, s2)
  }

  // ---------- the parser agrees ----------

  predicate NoTextFirst(toks: seq<Token>) {
    toks != [] ==> !toks[0].Text?
  }

  lemma NewlineAssociative(a: string, b: string, c: string)
    ensures a + "\n" + b + "\n" + c == a + "\n" + (b + "\n" + c)
  {
  }

  lemma HeadTail(b: Block, bs: seq<Block>, tail: seq<Token>)
    requires ValidBlock(b) && ValidBlocks(bs)
    ensures Flatten(b) + FlattenAll(bs) + tail == Flatten(b) + (FlattenAll(bs) + tail)
    ensures (Flatten(b) + FlattenAll(bs) + tail)[0] == Flatten(b)[0]
    ensures b.Words? ==> (Flatten(b) + FlattenAll(bs) + tail)[1..] == FlattenAll(bs) + tail
  {
  }

  lemma {:induction false} JoinsSiblings(acc: string, bs: seq<Block>, tail: seq<Token>)
    requires ValidBlocks(bs) && NoTextFirst(tail)
    ensures JoinTexts(acc, FlattenAll(bs) + tail) ==
      (if bs != [] && bs[0].Words? then acc + "\n" + Joined(bs) else acc, FlattenAll(AfterWords(bs)) + tail)
    decreases |bs|
  {
    if bs == [] {
      assert FlattenAll(bs) + tail == tail;
    } else {
      HeadTail(bs[0], bs[1..], tail);
      if bs[0].Words? {
        JoinsSiblings(acc + "\n" + bs[0].text, bs[1..], tail);
        if |bs| > 1 && bs[1].Words? { NewlineAssociative(acc, bs[0].text, Joined(bs[1..])); }
      }
    }
  }

  /** `parseText` reads one run of sibling texts. */
  lemma TextRun<S>(r: Renderer<S>, s: S, bs: seq<Block>, tail: seq<Token>)
    requires ValidBlocks(bs) && bs != [] && bs[0].Words? && NoTextFirst(tail)
    ensures var toks := FlattenAll(bs) + tail;
      var (html, s1) := r.inline(s, Joined(bs));
      toks[0].Text? && ParseText(r, s, toks) == Parsed(html, s1, FlattenAll(AfterWords(bs)) + tail)
  {
    HeadTail(bs[0], bs[1..], tail);
    JoinsSiblings(bs[0].text, bs[1..], tail);
  }

  /** The token that opens a container, in the parser's view of it. */
  function OpenOf(b: Block): Token
    requires !b.Plain? && !b.Words?
  {
    match b
    case Quote(_) => QuoteStart
    case Listing(ordered, start, _) => ListStart(ordered, start)
    case Item(task, checked, loose, _) => ItemStart(task, checked, loose)
  }

  /** The parser treats the three containers alike. */
  lemma Containers<S>(r: Renderer<S>, s: S, b: Block)
    requires ValidBlock(b) && !b.Plain? && !b.Words?
    ensures Opens(OpenOf(b)) && ValidBlocks(b.blocks)
    ensures Flatten(b) == [OpenOf(b)] + FlattenAll(b.blocks) + [CloserOf(OpenOf(b))]
    ensures var (content, s1) := RenderAll(r, !Tight(OpenOf(b)), s, b.blocks);
      RenderBlock(r, s, b) == (Wrap(r, OpenOf(b), Prefix(r, OpenOf(b)) + content), s1)
  {
    var content := RenderAll(r, !Tight(OpenOf(b)), s, b.blocks).0;
    assert "" + content == content;
  }

  /** `tok` consumes exactly one block: all of a container, up to its closing token. */
  lemma {:induction false} TokRenders<S>(r: Renderer<S>, silent: bool, s: S, b: Block, tail: seq<Token>)
    requires ValidBlock(b) && !b.Words?
    ensures var (html, s1) := RenderBlock(r, s, b);
      Tok(r, silent, s, Flatten(b) + tail) == Ok(Parsed(html, s1, tail))
    decreases b, 0
  {
    var toks := Flatten(b) + tail;
    if b.Plain? {
      assert toks[0] == b.token && toks[1..] == tail;
    } else {
      var open := OpenOf(b);
      Containers(r, s, b);
      assert toks == [open] + (FlattenAll(b.blocks) + ([CloserOf(open)] + tail));
      assert toks[1..] == FlattenAll(b.blocks) + ([CloserOf(open)] + tail);
      BodyRenders(r, silent, open, s, Prefix(r, open), b.blocks, tail);
    }
  }

  lemma Associative(a: string, b: string, c: string)
    ensures a + b + c == a + (b + c)
  {
  }

  /** A container's loop renders its content and stops at its own closing token. */
  lemma {:induction false} BodyRenders<S>(r: Renderer<S>, silent: bool, open: Token, s: S, acc: string, bs: seq<Block>, tail: seq<Token>)
    requires Opens(open) && ValidBlocks(bs)
    ensures var (html, s1) := RenderAll(r, !Tight(open), s, bs);
      Body(r, silent, open, s, acc, FlattenAll(bs) + ([CloserOf(open)] + tail)) == Ok(Parsed(acc + html, s1, tail))
    decreases bs, 1
  {
    var end := [CloserOf(open)] + tail;
    if bs == [] {
      assert FlattenAll(bs) + end == end && end[1..] == tail && acc + "" == acc;
    } else if bs[0].Words? {
      BodyWords(r, silent, open, s, acc, bs, end);
      var after := AfterWords(bs);
      var (html, s1) := r.inline(s, Joined(bs));
      var piece := if Tight(open) then html else r.paragraph(html);
      BodyRenders(r, silent, open, s1, acc + piece, after, tail);
      Associative(acc, piece, RenderAll(r, !Tight(open), s1, after).0);
    } else {
      BodyBlock(r, silent, open, s, acc, bs[0], bs[1..], end);
      var (html, s1) := RenderBlock(r, s, bs[0]);
      BodyRenders(r, silent, open, s1, acc + html, bs[1..], tail);
      Associative(acc, html, RenderAll(r, !Tight(open), s1, bs[1..]).0);
    }
  }

  /** One round of a container's loop, at a run of texts. */
  lemma BodyWords<S>(r: Renderer<S>, silent: bool, open: Token, s: S, acc: string, bs: seq<Block>, end: seq<Token>)
    requires Opens(open) && ValidBlocks(bs) && bs != [] && bs[0].Words? && NoTextFirst(end)
    ensures var (html, s1) := r.inline(s, Joined(bs));
      var piece := if Tight(open) then html else r.paragraph(html);
      Body(r, silent, open, s, acc, FlattenAll(bs) + end) == Body(r, silent, open, s1, acc + piece, FlattenAll(AfterWords(bs)) + end)
  {
    TextRun(r, s, bs, end);
  }

  /** One round of a container's loop, at a block that is not text. */
  lemma {:induction false} BodyBlock<S>(r: Renderer<S>, silent: bool, open: Token, s: S, acc: string, b: Block, bs: seq<Block>, end: seq<Token>)
    requires Opens(open) && ValidBlock(b) && ValidBlocks(bs) && !b.Words?
    ensures var (html, s1) := RenderBlock(r, s, b);
      Body(r, silent, open, s, acc, Flatten(b) + FlattenAll(bs) + end) == Body(r, silent, open, s1, acc + html, FlattenAll(bs) + end)
    decreases b, 1
  {
    TokRenders(r, silent, s, b, FlattenAll(bs) + end);
    HeadTail(b, bs, end);
    NotCloser(b, open);
  }

  lemma NotCloser(b: Block, open: Token)
    requires ValidBlock(b) && Opens(open)
    ensures Flatten(b)[0] != CloserOf(open)
  {
  }

  /** `parse` on the tokens of any block tree consumes them all and yields the rendering of the tree, adjacent texts joined. */
  lemma {:induction false} ParseRendersTree<S>(r: Renderer<S>, silent: bool, s: S, acc: string, bs: seq<Block>)
    requires ValidBlocks(bs)
    ensures var (html, s1) := RenderAll(r, true, s, bs);
      Parse(r, silent, s, acc, FlattenAll(bs)) == Ok(Parsed(acc + html, s1, []))
    decreases |bs|
  {
    var toks := FlattenAll(bs);
    if bs == [] {
      assert acc + "" == acc;
    } else if bs[0].Words? {
      assert toks + [] == toks;
      TextRun(r, s, bs, []);
      var after := AfterWords(bs);
      assert FlattenAll(after) + [] == FlattenAll(after);
      var (html, s1) := r.inline(s, Joined(bs));
      ParseRendersTree(r, silent, s1, acc + r.paragraph(html), after);
      var rest := RenderAll(r, true, s1, after).0;
      assert acc + r.paragraph(html) + rest == acc + (r.paragraph(html) + rest);
    } else {
      TokRenders(r, silent, s, bs[0], FlattenAll(bs[1..]));
      var (html, s1) := RenderBlock(r, s, bs[0]);
      ParseRendersTree(r, silent, s1, acc + html, bs[1..]);
      var rest := RenderAll(r, true, s1, bs[1..]).0;
      assert acc + html + rest == acc + (html + rest);
    }
  }

  function Texts(texts: seq<string>): (bs: seq<Block>)
    ensures ValidBlocks(bs) && |bs| == |texts|
    ensures forall i :: 0 <= i < |texts| ==> bs[i] == Words(texts[i])
  {
    if texts == [] then [] else [Words(texts[0])] + Texts(texts[1..])
  }

  /** Some lines, one below the other. */
  function Lines(texts: seq<string>): string
    requires texts != []
  {
    if |texts| == 1 then texts[0] else Lines(texts[..|texts| - 1]) + "\n" + texts[|texts| - 1]
  }

  lemma LinesCons(texts: seq<string>)
    requires |texts| > 1
    ensures Lines(texts) == texts[0] + "\n" + Lines(texts[1..])
  {
    var n := |texts| - 1;
    assert texts[..n][1..] == texts[1..][..n - 1] && texts[1..][n - 1] == texts[n];
    if n > 1 {
      LinesCons(texts[..n]);
      NewlineAssociative(texts[0], Lines(texts[1..][..n - 1]), texts[n]);
    }
  }

  lemma {:induction false} JoinedLines(texts: seq<string>)
    requires texts != []
    ensures Joined(Texts(texts)) == Lines(texts) && AfterWords(Texts(texts)) == []
  {
    assert Texts(texts)[1..] == Texts(texts[1..]);
    if |texts| > 1 {
      JoinedLines(texts[1..]);
      LinesCons(texts);
    }
  }

  lemma LinesRender<S>(r: Renderer<S>, paragraphs: bool, s: S, texts: seq<string>)
    requires texts != []
    ensures var (html, s1) := r.inline(s, Lines(texts));
      RenderAll(r, paragraphs, s, Texts(texts)) == (if paragraphs then r.paragraph(html) else html, s1)
  {
    JoinedLines(texts);
    var (html, s1) := r.inline(s, Lines(texts));
    assert RenderAll(r, paragraphs, s1, []) == ("", s1);
    var content := if paragraphs then r.paragraph(html) else html;
    assert content + "" == content;
  }

  /** `parse` on the tokens of a single block */
  lemma OneBlock<S>(r: Renderer<S>, silent: bool, s: S, b: Block)
    requires ValidBlock(b) && !b.Words?
    ensures Parse(r, silent, s, "", Flatten(b)) == Ok(Parsed(RenderBlock(r, s, b).0, RenderBlock(r, s, b).1, []))
  {
    var (html, s1) := RenderBlock(r, s, b);
    assert Flatten(b) + [] == Flatten(b);
    TokRenders(r, silent, s, b, []);
    assert "" + html == html;
    assert Parse(r, silent, s1, html, []) == Ok(Parsed(html, s1, []));
  }

  /** An item that holds lines of text: its checkbox, if it is a task, and the lines as a paragraph, if its list is loose. */
  lemma ItemOfLines<S>(r: Renderer<S>, silent: bool, s: S, task: bool, checked: bool, loose: bool, texts: seq<string>)
    requires texts != []
    ensures var toks := [ItemStart(task, checked, loose)] + FlattenAll(Texts(texts)) + [ItemEnd];
      var (html, s1) := r.inline(s, Lines(texts));
      var content := if loose then r.paragraph(html) else html;
      Parse(r, silent, s, "", toks) == Ok(Parsed(r.listitem(if task then r.checkbox(checked) + content else content), s1, []))
  {
    LinesRender(r, loose, s, texts);
    OneBlock(r, silent, s, Item(task, checked, loose, Texts(texts)));
  }

  // ---------- the parser object ----------

  function Reverse(toks: seq<Token>): (r: seq<Token>)
    ensures |r| == |toks|
  {
    if toks == [] then [] else [toks[|toks| - 1]] + Reverse(toks[..|toks| - 1])
  }

  /** The token list is kept reversed, so that the next token is popped off its end. */
  class Parser<S> {
    const r: Renderer<S>
    const silent: bool
    var tokens: seq<Token>
    var token: Option<Token>
    var state: S

    ghost function Ahead(): seq<Token>
      reads this
    {
      Reverse(tokens)
    }

    constructor (r: Renderer<S>, silent: bool, state: S)
      ensures this.r == r && this.silent == silent && this.state == state && tokens == []
    {
      this.r, this.silent, this.state := r, silent, state;
      tokens, token := [], None;
    }

    /** `next` */
    method Next()
      modifies this`tokens, this`token
      ensures if old(Ahead()) == [] then token == None && tokens == [] && old(tokens) == []
        else token == Some(old(Ahead())[0]) && Ahead() == old(Ahead())[1..] && |tokens| < |old(tokens)|
    {
      if tokens == [] {
        token := None;
      } else {
        token := Some(tokens[|tokens| - 1]);
        tokens := tokens[..|tokens| - 1];
      }
    }

    /** `peek().type === "text"` */
    method PeekIsText() returns (b: bool)
      ensures b <==> Ahead() != [] && Ahead()[0].Text?
    {
      b := tokens != [] && tokens[|tokens| - 1].Text?;
    }

    /** `parseText` */
    method ReadText() returns (html: string)
      requires token.Some? && token.value.Text?
      modifies this
      ensures var p := ParseText(r, old(state), [old(token.value)] + old(Ahead()));
        html == p.html && state == p.state && Ahead() == p.rest && |tokens| <= |old(tokens)|
    {
      var text := token.value.text;
      ghost var all := [token.value] + Ahead();
      assert all[1..] == Ahead();
      var more := PeekIsText();
      while more
        invariant state == old(state) && |tokens| <= |old(tokens)|
        invariant more <==> Ahead() != [] && Ahead()[0].Text?
        invariant JoinTexts(text, Ahead()) == JoinTexts(all[0].text, all[1..])
        decreases |tokens|
      {
        Next();
        text := text + "\n" + token.value.text;
        more := PeekIsText();
      }
      var (out, s1) := r.inline(state, text);
      html, state := out, s1;
    }

    /** `tok` */
    method ReadTok() returns (html: Result<string, Trouble>)
      requires token.Some?
      modifies this
      ensures match Tok(r, silent, old(state), [old(token.value)] + old(Ahead()))
        case Ok(p) => html == Ok(p.html) && state == p.state && Ahead() == p.rest && |tokens| <= |old(tokens)|
        case Err(e) => html == Err(e)
      decreases |tokens|, 1
    {
      var t := token.value;
      ghost var all := [t] + Ahead();
      assert all[1..] == Ahead();
      if t.Text? {
        var out := ReadText();
        return Ok(r.paragraph(out));
      } else if Opens(t) {
        var content := ReadBody(t, Prefix(r, t));
        return if content.Ok? then Ok(Wrap(r, t, content.value)) else content;
      } else if IsPlain(t) {
        var (out, s1) := RenderPlain(r, state, t);
        state := s1;
        return Ok(out);
      }
      return if silent then Ok("undefined") else Err(UnknownToken);
    }

    /** The loops of `tok` over the content of a container */
    method ReadBody(open: Token, prefix: string) returns (html: Result<string, Trouble>)
      requires Opens(open)
      modifies this
      ensures match Body(r, silent, open, old(state), prefix, old(Ahead()))
        case Ok(p) => html == Ok(p.html) && state == p.state && Ahead() == p.rest && |tokens| <= |old(tokens)|
        case Err(e) => html == Err(e)
      decreases |tokens|, 0
    {
      var acc := prefix;
      while true
        invariant |tokens| <= |old(tokens)|
        invariant Body(r, silent, open, state, acc, Ahead()) == Body(r, silent, open, old(state), prefix, old(Ahead()))
        decreases |tokens|
      {
        ghost var all := Ahead();
        Next();
        if token.None? { return Err(Underflow); }
        assert all == [token.value] + Ahead();
        if token.value == CloserOf(open) { return Ok(acc); }
        if Tight(open) && token.value.Text? {
          var out := ReadText();
          acc := acc + out;
        } else {
          var out := ReadTok();
          if out.Err? { return out; }
          acc := acc + out.value;
        }
      }
    }

    /** `parse` */
    method Run(toks: seq<Token>) returns (html: Result<string, Trouble>)
      modifies this
      ensures match Parse(r, silent, old(state), "", toks)
        case Ok(p) => html == Ok(p.html) && state == p.state && tokens == []
        case Err(e) => html == Err(e)
    {
      tokens := Reverse(toks);
      ReverseTwice(toks);
      var acc := "";
      while true
        invariant Parse(r, silent, state, acc, Ahead()) == Parse(r, silent, old(state), "", toks)
        decreases |tokens|
      {
        ghost var all := Ahead();
        Next();
        if token.None? { return Ok(acc); }
        assert all == [token.value] + Ahead();
        var out := ReadTok();
        if out.Err? { return out; }
        acc := acc + out.value;
      }
    }
  }

  lemma {:induction false} ReverseTwice(toks: seq<Token>)
    ensures Reverse(Reverse(toks)) == toks
  {
    if toks != [] {
      var n := |toks| - 1;
      ReverseTwice(toks[..n]);
      ReverseSnoc(Reverse(toks[..n]), toks[n]);
    }
  }

  lemma ReverseSnoc(toks: seq<Token>, t: Token)
    ensures Reverse([t] + toks) == Reverse(toks) + [t]
  {
    if toks == [] {
      assert [t] + toks == [t] && [t][..0] == [];
    } else {
      var n := |toks| - 1;
      assert ([t] + toks)[..n + 1] == [t] + toks[..n];
      ReverseSnoc(toks[..n], t);
    }
  }
}
