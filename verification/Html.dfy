/** HTML text escaping, and markup seen as a sequence of tags and escaped text. */
module Html {
  import opened Wrappers

  // ---------- escaping ----------

  /** JavaScript's `s.replace(/c/g, by)` for a one-character pattern. */
  function ReplaceAll(s: string, c: char, sub: string): string {
    if s == [] then [] else (if s[0] == c then sub else [s[0]]) + ReplaceAll(s[1..], c, sub)
  }

  datatype Pass = Pass(c: char, sub: string)

  /** Some replacements, one after the other. */
  function Replace(s: string, passes: seq<Pass>): string {
    if passes == [] then s else
      var last := passes[|passes| - 1];
      ReplaceAll(Replace(s, passes[..|passes| - 1]), last.c, last.sub)
  }

  const PASSES := [Pass('&', "&amp;"), Pass('<', "&lt;"), Pass('>', "&gt;")]

  /** highlight.js's `n`: three replacements, ampersands first. */
  function Escape(s: string): string {
    Replace(s, PASSES)
  }

  lemma ThreePasses(s: string)
    ensures Escape(s) == ReplaceAll(ReplaceAll(ReplaceAll(s, '&', "&amp;"), '<', "&lt;"), '>', "&gt;")
  {
    assert PASSES[..2] == [Pass('&', "&amp;"), Pass('<', "&lt;")] && PASSES[..2][..1] == [Pass('&', "&amp;")] && PASSES[..2][..1][..0] == [];
    assert Replace(s, PASSES[..2][..1]) == ReplaceAll(s, '&', "&amp;");
    assert Replace(s, PASSES[..2]) == ReplaceAll(ReplaceAll(s, '&', "&amp;"), '<', "&lt;");
  }

  function EscapeChar(c: char): string {
    if c == '&' then "&amp;" else if c == '<' then "&lt;" else if c == '>' then "&gt;" else [c]
  }

  lemma ReplaceAllConcat(a: string, b: string, c: char, sub: string)
    ensures ReplaceAll(a + b, c, sub) == ReplaceAll(a, c, sub) + ReplaceAll(b, c, sub)
  {
    if a == [] {
      assert a + b == b;
    } else {
      assert (a + b)[1..] == a[1..] + b;
      ReplaceAllConcat(a[1..], b, c, sub);
    }
  }

  lemma {:induction false} ReplaceConcat(a: string, b: string, passes: seq<Pass>)
    ensures Replace(a + b, passes) == Replace(a, passes) + Replace(b, passes)
  {
    if passes != [] {
      var n := |passes| - 1;
      ReplaceConcat(a, b, passes[..n]);
      ReplaceAllConcat(Replace(a, passes[..n]), Replace(b, passes[..n]), passes[n].c, passes[n].sub);
    }
  }

  /** Escaping two strings apart or together is the same, so text may be escaped piecemeal. */
  lemma EscapeConcat(a: string, b: string)
    ensures Escape(a + b) == Escape(a) + Escape(b)
  {
    ReplaceConcat(a, b, PASSES);
  }

  lemma EscapeEmpty()
    ensures Escape("") == ""
  {
    ThreePasses("");
  }

  lemma ReplaceAllOne(c: char, d: char, sub: string)
    ensures ReplaceAll([c], d, sub) == if c == d then sub else [c]
  {
    assert [c][1..] == [];
  }

  lemma ReplaceAllAbsent(s: string, c: char, sub: string)
    requires c !in s
    ensures ReplaceAll(s, c, sub) == s
  {
    if s != [] {
      ReplaceAllAbsent(s[1..], c, sub);
      assert [s[0]] + s[1..] == s;
    }
  }

  /** The three passes amount to one substitution per character: no replacement is replaced again. */
  lemma EscapeOne(c: char)
    ensures Escape([c]) == EscapeChar(c)
  {
    ThreePasses([c]);
    ReplaceAllOne(c, '&', "&amp;");
    var s := ReplaceAll([c], '&', "&amp;");
    if c == '&' {
      ReplaceAllAbsent("&amp;", '<', "&lt;");
      ReplaceAllAbsent("&amp;", '>', "&gt;");
    } else {
      ReplaceAllOne(c, '<', "&lt;");
      if c == '<' {
        ReplaceAllAbsent("&lt;", '>', "&gt;");
      } else {
        ReplaceAllOne(c, '>', "&gt;");
      }
    }
  }

  lemma EscapeCons(s: string)
    requires s != []
    ensures Escape(s) == EscapeChar(s[0]) + Escape(s[1..])
  {
    assert s == [s[0]] + s[1..];
    EscapeConcat([s[0]], s[1..]);
    EscapeOne(s[0]);
  }

  /** No angle bracket survives escaping, so escaped text can never be read as a tag. */
  lemma {:induction false} EscapeHasNoTag(s: string)
    ensures '<' !in Escape(s) && '>' !in Escape(s)
    ensures |Escape(s)| >= |s|
  {
    EscapeEmpty();
    if s != [] {
      EscapeCons(s);
      EscapeHasNoTag(s[1..]);
    }
  }

  /** What a browser shows for character data: the three entities read back. */
  function Unescape(s: string): string {
    if s == [] then []
    else if "&amp;" <= s then "&" + Unescape(s[5..])
    else if "&lt;" <= s then "<" + Unescape(s[4..])
    else if "&gt;" <= s then ">" + Unescape(s[4..])
    else [s[0]] + Unescape(s[1..])
  }

  lemma UnescapeEntity(c: char, rest: string)
    ensures Unescape(EscapeChar(c) + rest) == [c] + Unescape(rest)
  {
    var s := EscapeChar(c) + rest;
    assert s[|EscapeChar(c)|..] == rest;
    if c == '&' {
      assert s[..5] == "&amp;";
    } else if c == '<' {
      assert s[..4] == "&lt;" && s[1] == 'l';
    } else if c == '>' {
      assert s[..4] == "&gt;" && s[1] == 'g';
    } else {
      assert s[0] == c;
    }
  }

  /** Escaping loses nothing: reading the entities back gives the original text. */
  lemma {:induction false} UnescapeEscape(s: string)
    ensures Unescape(Escape(s)) == s
  {
    EscapeEmpty();
    if s != [] {
      EscapeCons(s);
      UnescapeEntity(s[0], Escape(s[1..]));
      UnescapeEscape(s[1..]);
    }
  }

  // ---------- markup ----------

  /** A span of highlighted HTML: an opening tag with its class, a closing tag, or escaped text. */
  datatype Piece = Open(className: string) | Close | Text(escaped: string)

  /** The character data of a run of pieces: the tags erased. */
  function TextOf(pieces: seq<Piece>): string {
    if pieces == [] then ""
    else (if pieces[0].Text? then pieces[0].escaped else "") + TextOf(pieces[1..])
  }

  /** The classes left open, innermost last, after reading `pieces` inside `open`; None once a closing tag has no partner. */
  function Nest(open: seq<string>, pieces: seq<Piece>): Option<seq<string>>
    decreases pieces
  {
    if pieces == [] then Some(open)
    else match pieces[0]
      case Open(c) => Nest(open + [c], pieces[1..])
      case Close => if open == [] then None else Nest(open[..|open| - 1], pieces[1..])
      case Text(_) => Nest(open, pieces[1..])
  }

  predicate Balanced(pieces: seq<Piece>) {
    Nest([], pieces) == Some([])
  }

  lemma TextOfConcat(a: seq<Piece>, b: seq<Piece>)
    ensures TextOf(a + b) == TextOf(a) + TextOf(b)
  {
    if a == [] {
      assert a + b == b;
    } else {
      assert (a + b)[1..] == a[1..] + b;
      TextOfConcat(a[1..], b);
    }
  }

  lemma NestConcat(open: seq<string>, a: seq<Piece>, b: seq<Piece>)
    ensures Nest(open, a + b) == if Nest(open, a).None? then None else Nest(Nest(open, a).value, b)
    decreases a
  {
    if a == [] {
      assert a + b == b;
    } else {
      assert (a + b)[1..] == a[1..] + b && (a + b)[0] == a[0];
      match a[0]
      case Open(c) => NestConcat(open + [c], a[1..], b);
      case Close => if open != [] { NestConcat(open[..|open| - 1], a[1..], b); }
      case Text(_) => NestConcat(open, a[1..], b);
    }
  }

  /** Pieces that close only what they open can stand inside any open elements. */
  lemma {:induction false} NestInside(outer: seq<string>, open: seq<string>, a: seq<Piece>)
    requires Nest(open, a).Some?
    ensures Nest(outer + open, a) == Some(outer + Nest(open, a).value)
    decreases a
  {
    if a != [] {
      match a[0]
      case Open(c) =>
        assert outer + open + [c] == outer + (open + [c]);
        NestInside(outer, open + [c], a[1..]);
      case Close =>
        assert (outer + open)[..|outer + open| - 1] == outer + open[..|open| - 1];
        NestInside(outer, open[..|open| - 1], a[1..]);
      case Text(_) => NestInside(outer, open, a[1..]);
    }
  }

  lemma BalancedInside(outer: seq<string>, a: seq<Piece>)
    requires Balanced(a)
    ensures Nest(outer, a) == Some(outer)
  {
    NestInside(outer, [], a);
    assert outer + [] == outer;
  }

  // ---------- the string itself ----------

  function Tag(body: string): string {
    ['<'] + body + ['>']
  }

  function RenderPiece(p: Piece): string {
    match p
    case Open(c) => Tag("span class=\"" + c + "\"")
    case Close => Tag("/span")
    case Text(t) => t
  }

  function Render(pieces: seq<Piece>): string {
    if pieces == [] then "" else RenderPiece(pieces[0]) + Render(pieces[1..])
  }

  /** Erases everything between `<` and the next `>`. */
  function Strip(s: string, inTag: bool): string {
    if s == [] then ""
    else if inTag then Strip(s[1..], s[0] != '>')
    else if s[0] == '<' then Strip(s[1..], true)
    else [s[0]] + Strip(s[1..], false)
  }

  predicate TagFree(s: string) {
    '<' !in s && '>' !in s
  }

  predicate Clean(p: Piece) {
    match p
    case Open(c) => TagFree(c)
    case Close => true
    case Text(t) => TagFree(t)
  }

  lemma StripText(t: string, rest: string)
    requires TagFree(t)
    ensures Strip(t + rest, false) == t + Strip(rest, false)
  {
    if t == [] {
      assert t + rest == rest;
    } else {
      assert (t + rest)[1..] == t[1..] + rest;
      StripText(t[1..], rest);
    }
  }

  lemma StripTagBody(t: string, rest: string)
    requires TagFree(t)
    ensures Strip(t + ['>'] + rest, true) == Strip(rest, false)
  {
    var s := t + ['>'] + rest;
    if t == [] {
      assert s[1..] == rest;
    } else {
      assert s[1..] == t[1..] + ['>'] + rest;
      StripTagBody(t[1..], rest);
    }
  }

  lemma StripTag(body: string, rest: string)
    requires TagFree(body)
    ensures Strip(Tag(body) + rest, false) == Strip(rest, false)
  {
    assert Tag(body) + rest == ['<'] + (body + ['>'] + rest);
    assert (Tag(body) + rest)[1..] == body + ['>'] + rest;
    StripTagBody(body, rest);
  }

  lemma StripPiece(p: Piece, rest: string)
    requires Clean(p)
    ensures Strip(RenderPiece(p) + rest, false) == (if p.Text? then p.escaped else "") + Strip(rest, false)
  {
    match p
    case Open(c) => StripTag("span class=\"" + c + "\"", rest);
    case Close => StripTag("/span", rest);
    case Text(t) => StripText(t, rest);
  }

  /** On the rendered string, dropping the tags leaves exactly the character data. */
  lemma {:induction false} StripRender(pieces: seq<Piece>)
    requires forall p :: p in pieces ==> Clean(p)
    ensures Strip(Render(pieces), false) == TextOf(pieces)
  {
    if pieces != [] {
      StripPiece(pieces[0], Render(pieces[1..]));
      StripRender(pieces[1..]);
    }
  }

  // ---------- reading the string back ----------

  const SPAN := "span class=\""

  /** Up to the next `>`. */
  function TagBody(s: string): (body: string)
    ensures |body| <= |s|
  {
    if s == [] || s[0] == '>' then "" else [s[0]] + TagBody(s[1..])
  }

  function TagPiece(body: string): Piece {
    if body == "/span" then Close
    else if |body| > |SPAN| then Open(body[|SPAN|..|body| - 1])
    else Open("")
  }

  function Pending(text: string): seq<Piece> {
    if text == "" then [] else [Text(text)]
  }

  /** The tags and stretches of text of a string, behind the text `read` already. */
  function ReadBack(s: string, read: string): seq<Piece>
    decreases |s|
  {
    if s == [] then Pending(read)
    else if s[0] != '<' then ReadBack(s[1..], read + [s[0]])
    else
      var body := TagBody(s[1..]);
      Pending(read) + [TagPiece(body)] + if |body| + 2 <= |s| then ReadBack(s[|body| + 2..], "") else []
  }

  /** Pieces with adjacent texts run together and empty ones left out, behind the text `read` already. */
  function Joined(pieces: seq<Piece>, read: string): seq<Piece> {
    if pieces == [] then Pending(read)
    else if pieces[0].Text? then Joined(pieces[1..], read + pieces[0].escaped)
    else Pending(read) + [pieces[0]] + Joined(pieces[1..], "")
  }

  lemma ReadText(t: string, rest: string, read: string)
    requires TagFree(t)
    ensures ReadBack(t + rest, read) == ReadBack(rest, read + t)
  {
    if t == [] {
      assert t + rest == rest && read + t == read;
    } else {
      assert (t + rest)[1..] == t[1..] + rest;
      ReadText(t[1..], rest, read + [t[0]]);
      assert read + [t[0]] + t[1..] == read + t;
    }
  }

  lemma TagBodyIs(body: string, rest: string)
    requires TagFree(body)
    ensures TagBody(body + ['>'] + rest) == body
  {
    var s := body + ['>'] + rest;
    if body != [] {
      assert s[1..] == body[1..] + ['>'] + rest;
      TagBodyIs(body[1..], rest);
      assert [body[0]] + body[1..] == body;
    }
  }

  lemma ReadTag(body: string, rest: string, read: string)
    requires TagFree(body)
    ensures ReadBack(Tag(body) + rest, read) == Pending(read) + [TagPiece(body)] + ReadBack(rest, "")
  {
    var s := Tag(body) + rest;
    assert s[1..] == body + ['>'] + rest;
    TagBodyIs(body, rest);
    assert s[|body| + 2..] == rest;
  }

  lemma OpenBack(c: string)
    requires TagFree(c)
    ensures RenderPiece(Open(c)) == Tag(SPAN + c + "\"") && TagFree(SPAN + c + "\"") && TagPiece(SPAN + c + "\"") == Open(c)
  {
    var body := SPAN + c + "\"";
    assert body[0] == 's' && body[|SPAN|..|body| - 1] == c;
  }

  /** Nothing is lost in the string: read back, its tags and texts are the pieces, adjacent texts run together. */
  lemma {:induction false} ReadBackRender(pieces: seq<Piece>, read: string)
    requires forall p :: p in pieces ==> Clean(p)
    ensures ReadBack(Render(pieces), read) == Joined(pieces, read)
    decreases pieces
  {
    if pieces != [] {
      var rest := Render(pieces[1..]);
      assert Clean(pieces[0]);
      match pieces[0]
      case Text(t) =>
        ReadText(t, rest, read);
        ReadBackRender(pieces[1..], read + t);
      case Open(c) =>
        OpenBack(c);
        ReadTag(SPAN + c + "\"", rest, read);
        ReadBackRender(pieces[1..], "");
      case Close =>
        ReadTag("/span", rest, read);
        ReadBackRender(pieces[1..], "");
    }
  }
}
