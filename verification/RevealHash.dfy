/** The URL hash of a presentation, printed and read back character by character. */
module RevealHash {
  import opened Wrappers
  import opened RevealView
  import opened RevealNavigation
  import opened Decimal

  /** `s.split( '/' )` */
  function Split(s: string): (r: seq<string>)
    ensures r != []
  {
    if s == [] then [[]]
    else
      var rest := Split(s[1..]);
      if s[0] == '/' then [[]] + rest else [[s[0]] + rest[0]] + rest[1..]
  }

  lemma SplitNone(a: string)
    requires '/' !in a
    ensures Split(a) == [a]
  {
    if a != [] {
      SplitNone(a[1..]);
      assert [a[0]] + a[1..] == a;
    }
  }

  lemma SplitFirst(a: string, b: string)
    requires '/' !in a
    ensures Split(a + "/" + b) == [a] + Split(b)
  {
    var s := a + "/" + b;
    if a == [] {
      assert s == ['/'] + b && s[1..] == b;
    } else {
      assert s[1..] == a[1..] + "/" + b;
      SplitFirst(a[1..], b);
      assert [a[0]] + a[1..] == a;
    }
  }

  function Base(cfg: Config): nat {
    if cfg.hashOneBased then 1 else 0
  }

  /** `locationHash()` of an unnamed slide, when `getIndices().f` is `f`. */
  function LocationHash(cfg: Config, h: nat, v: nat, f0: Option<int>): string {
    var f := if cfg.fragmentInURL then f0 else None;
    "/" + (if h > 0 || v > 0 || f.Some? then Show(h + Base(cfg)) else "")
        + (if v > 0 || f.Some? then "/" + Show(v + Base(cfg)) else "")
        + (if f.Some? then "/" + ShowInt(f.value) else "")
  }

  /** What `readURL()` finds in a hash: a name, or indices. */
  datatype Location = Named(name: string) | Indexed(h: int, v: int, f: Option<int>)

  /** `( parseInt( bit, 10 ) - base ) || 0`, where the bit may be missing. */
  function IndexBit(cfg: Config, bits: seq<string>, i: nat): int {
    if i < |bits| && ParseInt(bits[i]).Some? then ParseInt(bits[i]).value - Base(cfg) else 0
  }

  /** `hash` includes the leading `#`. */
  function ReadHash(cfg: Config, hash: string): Location {
    var bits := Split(if |hash| >= 2 then hash[2..] else "");
    if !(forall c :: c in bits[0] ==> IsDigit(c)) then Named(hash)
    else Indexed(IndexBit(cfg, bits, 0), IndexBit(cfg, bits, 1),
                 if cfg.fragmentInURL && |bits| > 2 then ParseInt(bits[2]) else None)
  }

  lemma NoSlash(i: int)
    ensures '/' !in ShowInt(i)
  {
    if i < 0 { assert '/' !in Show(-i); }
  }

  lemma BitShown(cfg: Config, bits: seq<string>, i: nat, n: nat)
    requires i < |bits| && bits[i] == Show(n + Base(cfg))
    ensures IndexBit(cfg, bits, i) == n
  {
    ParseShow(n + Base(cfg));
  }

  /** The parts between the slashes of a printed hash. */
  function Bits(cfg: Config, h: nat, v: nat, f: Option<int>): seq<string> {
    var a, b := Show(h + Base(cfg)), Show(v + Base(cfg));
    if f.Some? then [a, b, ShowInt(f.value)] else if v > 0 then [a, b] else if h > 0 then [a] else [""]
  }

  lemma ThreeBits(a: string, b: string, c: string)
    requires '/' !in a && '/' !in b && '/' !in c
    ensures Split(a + ("/" + b) + ("/" + c)) == [a, b, c]
  {
    assert a + ("/" + b) + ("/" + c) == a + "/" + (b + "/" + c);
    SplitNone(c);
    SplitFirst(b, c);
    SplitFirst(a, b + "/" + c);
  }

  lemma TwoBits(a: string, b: string)
    requires '/' !in a && '/' !in b
    ensures Split(a + ("/" + b)) == [a, b]
  {
    assert a + ("/" + b) == a + "/" + b;
    SplitNone(b);
    SplitFirst(a, b);
  }

  lemma BitsShown(cfg: Config, h: nat, v: nat, f: Option<int>)
    ensures var g := if cfg.fragmentInURL then f else None;
      Split(LocationHash(cfg, h, v, f)[1..]) == Bits(cfg, h, v, g)
  {
    var url := LocationHash(cfg, h, v, f);
    var g := if cfg.fragmentInURL then f else None;
    var a, b := Show(h + Base(cfg)), Show(v + Base(cfg));
    if g.Some? {
      var c := ShowInt(g.value);
      NoSlash(g.value);
      assert url[1..] == a + ("/" + b) + ("/" + c);
      ThreeBits(a, b, c);
    } else if v > 0 {
      assert url[1..] == a + ("/" + b);
      TwoBits(a, b);
    } else if h > 0 {
      assert url[1..] == a;
      SplitNone(a);
    } else {
      assert url[1..] == "";
    }
  }

  /** What stands between the slashes of a printed hash: nothing for the first slide, else numerals for the indices, counted
      from 0 or 1, as far as they are needed, and for the fragment, which is counted from 0 in either case. */
  lemma HashNumerals(cfg: Config, h: nat, v: nat, f: Option<int>)
    ensures var hash, n := LocationHash(cfg, h, v, f), if cfg.hashOneBased then 1 else 0;
      var shown := cfg.fragmentInURL && f.Some?;
      && hash[0] == '/'
      && if h == 0 && v == 0 && !shown then hash == "/"
         else
           var bits := Split(hash[1..]);
           && |bits| == (if shown then 3 else if v > 0 then 2 else 1)
           && ParseInt(bits[0]) == Some(h + n)
           && (|bits| > 1 ==> ParseInt(bits[1]) == Some(v + n))
           && (|bits| > 2 ==> ParseInt(bits[2]) == f)
  {
    BitsShown(cfg, h, v, f);
    ParseShow(h + Base(cfg));
    ParseShow(v + Base(cfg));
    if f.Some? { ParseShow(f.value); }
  }

  /** Reading a printed hash gives back the indices and, if it is part of the URL, the fragment. */
  lemma HashRoundTrip(cfg: Config, h: nat, v: nat, f: Option<int>)
    ensures ReadHash(cfg, "#" + LocationHash(cfg, h, v, f)) == Indexed(h, v, if cfg.fragmentInURL then f else None)
  {
    var url := LocationHash(cfg, h, v, f);
    var g := if cfg.fragmentInURL then f else None;
    assert ("#" + url)[2..] == url[1..];
    BitsShown(cfg, h, v, f);
    BitsRead(cfg, h, v, g);
  }

  lemma BitsRead(cfg: Config, h: nat, v: nat, g: Option<int>)
    requires g.Some? ==> cfg.fragmentInURL
    ensures var bits := Bits(cfg, h, v, g);
      && (forall c :: c in bits[0] ==> IsDigit(c)) && IndexBit(cfg, bits, 0) == h && IndexBit(cfg, bits, 1) == v
      && (if cfg.fragmentInURL && |bits| > 2 then ParseInt(bits[2]) else None) == g
  {
    var bits := Bits(cfg, h, v, g);
    if bits != [""] { BitShown(cfg, bits, 0, h); }
    if |bits| > 1 { BitShown(cfg, bits, 1, v); }
    if g.Some? { ParseShow(g.value); }
  }

  /** `readURL()` for a hash without a name. */
  function ReadUrl(d: Shape, cfg: Config, s: View, hash: string): (r: View)
    requires Valid(d, s) && ReadHash(cfg, hash).Indexed?
    ensures Valid(d, r)
  {
    match ReadHash(cfg, hash)
    case Indexed(h, v, f) => if h != s.h || v != s.v || f.Some? then Slide(d, cfg, s, Some(h), Some(v), f) else s
  }

  /** The hash of a view, read back in any other view of the same deck, leads to the same slide, and with fragments in the
      URL to the same fragments. */
  lemma HashRestores(d: Shape, cfg: Config, s: View, f: Option<int>, t: View)
    requires Valid(d, s) && Valid(d, t) && Reports(d, s, f)
    ensures ReadHash(cfg, "#" + LocationHash(cfg, s.h, s.v, f)).Indexed?
    ensures var r := ReadUrl(d, cfg, t, "#" + LocationHash(cfg, s.h, s.v, f));
      r.h == s.h && r.v == s.v && (cfg.fragmentInURL ==> Same(r, s))
  {
    HashRoundTrip(cfg, s.h, s.v, f);
    SnapshotRestores(d, cfg, s, f, t);
  }
}
