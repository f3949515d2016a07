/** A grammar in the manner of the bundled ones: numbers without an end, line comments, and settings that end with their line. */
module HighlighterSample {
  import opened Wrappers
  import opened Html
  import opened Highlighter
  import opened HighlighterRoots
  import opened HighlighterProofs
  import opened HighlighterExact

  const LANGUAGE: ModeId := 0
  const NUMBER: ModeId := 1
  const COMMENT: ModeId := 2
  const SETTING: ModeId := 3
  const VALUE: ModeId := 4

  function PlainMode(contains: seq<ModeId>): Mode {
    Mode(None, 1.0, false, false, false, false, false, false, false, contains, None, false, NoSubLanguage)
  }

  function SampleMode(m: ModeId): Mode {
    if m == LANGUAGE then PlainMode([NUMBER, COMMENT, SETTING])
    else if m == SETTING then PlainMode([VALUE])
    else if m == VALUE then PlainMode([]).(endsWithParent := true)
    else PlainMode([])
  }

  /** The lexemes that begin a mode. */
  predicate SampleBegins(m: ModeId, lex: string) {
    (m == NUMBER && lex == "1") || (m == COMMENT && lex == "#") || (m == SETTING && lex == "[") || (m == VALUE && lex == "=")
  }

  /** `/\B|\b/`, which compiling gives a mode without an end, matches everywhere; `/$/m` matches at the end of a line. */
  predicate SampleEnds(m: ModeId, lex: string) {
    m == NUMBER || ((m == COMMENT || m == SETTING) && (lex == "" || lex[0] == '\n'))
  }

  /** The first place from `from` on where a contained mode begins or, if the mode ends with its line, the line does. */
  function FirstMatch(m: ModeId, s: string, from: nat): (r: Option<Match>)
    ensures r.Some? && r.value.length == 0 ==> m != LANGUAGE
    decreases |s| - from
  {
    if m == NUMBER then Some(Match(from, 0))
    else if from > |s| || m > VALUE then None
    else if m != LANGUAGE && (from == |s| || s[from] == '\n') then Some(Match(from, 0))
    else if from == |s| then None
    else if SubMode(Bare(), SampleMode(m).contains, [s[from]]).Some? then Some(Match(from, 1))
    else FirstMatch(m, s, from + 1)
  }

  /** The sample without its scanning expressions. */
  function Bare(): Grammar {
    Grammar("hljs-", (m: ModeId) => SampleMode(m), (name: string) => if name == "sample" then Some(LANGUAGE) else None,
            (name: string) => name == "sample", (m: ModeId, s: string, from: nat) => None,
            (m: ModeId, lex: string) => SampleBegins(m, lex), (m: ModeId, lex: string) => SampleEnds(m, lex),
            (m: ModeId, lex: string) => false, (m: ModeId, s: string, from: nat) => None, (m: ModeId, w: string) => None, ["sample"])
  }

  function Sample(): Grammar {
    Bare().(terminator := (m: ModeId, s: string, from: nat) => FirstMatch(m, s, from))
  }

  lemma ContainedOrStarted(g: Grammar, parent: ModeId, path: seq<ModeId>)
    requires StartsPath(g, parent, path)
    ensures |path| == 1 || exists m: ModeId :: g.mode(m).starts == Some(Top(path))
  {
    if |path| > 1 { assert g.mode(path[|path| - 2]).starts == Some(path[|path| - 1]); }
  }

  lemma SampleFollows(parent: ModeId, child: ModeId)
    requires Follows(Sample(), parent, child)
    ensures child in SampleMode(parent).contains
  {
    var path :| StartsPath(Sample(), parent, path) && Top(path) == child;
    ContainedOrStarted(Sample(), parent, path);
  }

  /** On every chain that a run can build an empty match ends its mode, or the mode around it. */
  lemma SampleChain(chain: seq<ModeId>)
    requires RootedChain(Sample(), "sample", chain)
    ensures FaithfulChain(Sample(), {"sample"}, chain)
  {
    var g := Sample();
    var n := |chain| - 1;
    if n > 0 {
      SampleFollows(chain[n - 1], chain[n]);
      if n > 1 { SampleFollows(chain[n - 2], chain[n - 1]); }
      assert EndOfMode(g, chain, n - 1, "").Ok?;
      assert Classified(g, chain, "");
    }
  }

  /** The sample is faithful, although empty matches occur inside texts in each of its inner modes. */
  lemma SampleIsFaithful()
    ensures Faithful(Sample(), {"sample"})
    ensures EmptyMatch(Sample(), NUMBER, "1 ", 1) && EmptyMatch(Sample(), COMMENT, "#\n", 1) && EmptyMatch(Sample(), VALUE, "[=\n", 2)
  {
    forall n, chain | n in {"sample"} && RootedChain(Sample(), n, chain) ensures FaithfulChain(Sample(), {"sample"}, chain) {
      SampleChain(chain);
    }
  }

  /** So whatever is highlighted in it is shown as it is. */
  lemma SampleShowsInput(fuel: nat, text: string, ignore: bool)
    ensures var r := Highlight(Sample(), fuel, "sample", text, ignore, None);
      r.Ok? ==> Balanced(r.value.value) && Unescape(Strip(Render(r.value.value), false)) == text
  {
    SampleIsFaithful();
    PageShowsInput(Sample(), {"sample"}, fuel, "sample", text, ignore, None);
  }
}
