/**
 * The two placeholder grammars of the template engine, as hand-written
 * scanners that behave like a leftmost, non-overlapping regular-expression
 * match loop:
 *   generic token  `\{[^{}]+\}`
 *   named token    `\{(\w+)(?::([^}]*))?\}`
 * A scan splits a template into pieces: single literal characters and
 * whole tokens; joining the pieces back gives the template.
 */
module Tokens {
  import opened Wrappers

  /** The character class `\w` (ASCII part). */
  predicate IsWordChar(c: char) {
    'a' <= c <= 'z' || 'A' <= c <= 'Z' || '0' <= c <= '9' || c == '_'
  }

  predicate IsBrace(c: char) {
    c == '{' || c == '}'
  }

  // ----------------------------------------------------------------------
  // Generic tokens: `{` + one or more characters other than braces + `}`

  /** `t` is, as a whole, one generic token. */
  predicate IsGenericToken(t: string) {
    && |t| >= 3
    && t[0] == '{'
    && t[|t| - 1] == '}'
    && forall i :: 1 <= i < |t| - 1 ==> !IsBrace(t[i])
  }

  /** The first position at or after `i` that holds a brace, or `|s|`. */
  function NextBrace(s: string, i: nat): (j: nat)
    requires i <= |s|
    ensures i <= j <= |s|
    ensures forall k :: i <= k < j ==> !IsBrace(s[k])
    ensures j < |s| ==> IsBrace(s[j])
    decreases |s| - i
  {
    if i == |s| || IsBrace(s[i]) then i else NextBrace(s, i + 1)
  }

  /** The first `n` characters of `s` form one generic token. */
  predicate GenericPrefix(s: string, n: nat) {
    n <= |s| && IsGenericToken(s[..n])
  }

  /** A generic token at the head of `s` ends at the first brace after the opening one. */
  lemma GenericPrefixShape(s: string, n: nat)
    requires GenericPrefix(s, n)
    ensures 3 <= n <= |s| && s[0] == '{' && s[n - 1] == '}' && NextBrace(s, 1) == n - 1
  {
    var t := s[..n];
    assert t[0] == s[0] && t[n - 1] == s[n - 1];
    assert forall i :: 1 <= i < n - 1 ==> t[i] == s[i];
  }

  /**
   * The length of the generic token that begins `s`, if one does: its end
   * is the first brace after the opening one. GenericAtFinds shows that it
   * misses no token.
   */
  function GenericAt(s: string): (r: Option<nat>)
    ensures r.Some? ==> GenericPrefix(s, r.value)
  {
    if |s| < 3 || s[0] != '{' then None
    else
      var e := NextBrace(s, 1);
      if 2 <= e < |s| && s[e] == '}' then
        var t := s[..e + 1];
        assert forall i :: 1 <= i < e ==> t[i] == s[i];
        Some(e + 1)
      else None
  }

  /** Whatever generic token begins `s` is the one GenericAt reports. */
  lemma GenericAtFinds(s: string, n: nat)
    requires GenericPrefix(s, n)
    ensures GenericAt(s) == Some(n)
  {
    GenericPrefixShape(s, n);
  }

  datatype GenericPiece = GLit(c: char) | GToken(body: string)

  /** The template text a piece stands for. */
  function GenericText(p: GenericPiece): string {
    match p
    case GLit(c) => [c]
    case GToken(body) => "{" + body + "}"
  }

  function GenericJoin(ps: seq<GenericPiece>): string
    decreases |ps|
  {
    if ps == [] then [] else GenericText(ps[0]) + GenericJoin(ps[1..])
  }

  /** The number of tokens among the pieces. */
  function TokenCount(ps: seq<GenericPiece>): nat
    decreases |ps|
  {
    if ps == [] then 0 else (if ps[0].GToken? then 1 else 0) + TokenCount(ps[1..])
  }

  /** The generic tokens of `s`, leftmost first, with the text between them. */
  function GenericScan(s: string): seq<GenericPiece>
    decreases |s|
  {
    if s == [] then []
    else
      match GenericAt(s)
      case Some(n) =>
        GenericPrefixShape(s, n);
        [GToken(s[1..n - 1])] + GenericScan(s[n..])
      case None =>
        [GLit(s[0])] + GenericScan(s[1..])
  }

  /** Joining the pieces of a scan gives back the template: nothing is lost or added. */
  lemma {:induction false} GenericScanJoin(s: string)
    ensures GenericJoin(GenericScan(s)) == s
    decreases |s|
  {
    if s != [] {
      if GenericAt(s).Some? {
        var n := GenericAt(s).value;
        ScanStep(s);
        TokenHeadText(s, n);
        GenericScanJoin(s[n..]);
        JoinAfterHead(s, n, GToken(s[1..n - 1]));
      } else {
        LiteralHead(s);
        GenericScanJoin(s[1..]);
        JoinAfterHead(s, 1, GLit(s[0]));
      }
    }
  }

  /** The scan of `s` is `head`, spelling `s[..n]`, then the scan of `s[n..]`, which joins back to `s[n..]`. */
  lemma JoinAfterHead(s: string, n: nat, head: GenericPiece)
    requires n <= |s| && GenericScan(s) == [head] + GenericScan(s[n..])
    requires GenericText(head) == s[..n] && GenericJoin(GenericScan(s[n..])) == s[n..]
    ensures GenericJoin(GenericScan(s)) == s
  {
    GenericJoinCons(head, GenericScan(s[n..]));
    assert s == s[..n] + s[n..];
  }

  lemma GenericJoinCons(p: GenericPiece, ps: seq<GenericPiece>)
    ensures GenericJoin([p] + ps) == GenericText(p) + GenericJoin(ps)
  {
    assert ([p] + ps)[1..] == ps;
  }

  /** A token of length `n` at the head of `s` spells `s[..n]`. */
  lemma TokenHeadText(s: string, n: nat)
    requires GenericPrefix(s, n)
    ensures 3 <= n <= |s| && IsGenericToken(s[..n])
    ensures GenericText(GToken(s[1..n - 1])) == s[..n]
  {
    GenericPrefixShape(s, n);
    assert s[..n] == "{" + s[1..n - 1] + "}";
  }

  /** Without a token at its head, `s` is scanned as its first character, then the rest. */
  lemma LiteralHead(s: string)
    requires s != [] && GenericAt(s).None?
    ensures GenericText(GLit(s[0])) == s[..1]
    ensures GenericScan(s) == [GLit(s[0])] + GenericScan(s[1..])
  {
  }

  /** One step of the generic scanner at the head of `s`. */
  lemma ScanStep(s: string)
    requires s != []
    ensures GenericAt(s).None? ==> GenericScan(s) == [GLit(s[0])] + GenericScan(s[1..])
    ensures GenericAt(s).Some? ==>
      var n := GenericAt(s).value;
      GenericScan(s) == [GToken(s[1..n - 1])] + GenericScan(s[n..])
  {
  }

  /** No generic token starts at position `p` of `s`. */
  predicate NoGenericAt(s: string, p: nat)
    requires p <= |s|
  {
    GenericAt(s[p..]).None?
  }

  /** The positions `start` (inclusive) to `end` (exclusive) of a template. */
  datatype Span = Span(start: nat, end: nat)

  /** The span of the leftmost generic token of `s`, if any; see FirstGenericIsLeftmost. */
  function FirstGeneric(s: string): Option<Span>
    decreases |s|
  {
    if s == [] then None
    else if GenericAt(s).Some? then Some(Span(0, GenericAt(s).value))
    else
      match FirstGeneric(s[1..])
      case None => None
      case Some(sp) => Some(Span(sp.start + 1, sp.end + 1))
  }

  /**
   * FirstGeneric finds where a generic token starts, and no token starts
   * before it; `None` means no position of `s` starts one.
   */
  lemma {:induction false} FirstGenericIsLeftmost(s: string)
    ensures var r := FirstGeneric(s);
      && (r.Some? ==> r.value.start < r.value.end <= |s|)
      && (r.Some? ==> GenericAt(s[r.value.start..]) == Some(r.value.end - r.value.start))
      && (r.Some? ==> forall p :: 0 <= p < r.value.start ==> NoGenericAt(s, p))
      && (r.None? ==> forall p :: 0 <= p < |s| ==> NoGenericAt(s, p))
    decreases |s|
  {
    if s == [] {
    } else if GenericAt(s).Some? {
      assert s[0..] == s;
      GenericPrefixShape(s, GenericAt(s).value);
    } else {
      assert NoGenericAt(s, 0) by { assert s[0..] == s; }
      FirstGenericIsLeftmost(s[1..]);
      match FirstGeneric(s[1..])
      case None =>
        ShiftNoGeneric(s, |s|);
      case Some(sp) =>
        assert s[sp.start + 1..] == s[1..][sp.start..];
        ShiftNoGeneric(s, sp.start + 1);
    }
  }

  lemma ShiftNoGeneric(s: string, a: nat)
    requires 1 <= a <= |s| && NoGenericAt(s, 0)
    requires forall p :: 0 <= p < a - 1 ==> NoGenericAt(s[1..], p)
    ensures forall p :: 0 <= p < a ==> NoGenericAt(s, p)
  {
    forall p | 1 <= p < a
      ensures NoGenericAt(s, p)
    {
      assert s[p..] == s[1..][p - 1..];
      assert NoGenericAt(s[1..], p - 1);
    }
  }

  // ----------------------------------------------------------------------
  // Named tokens: `{name}` or `{name:spec}`

  datatype NamedToken = NamedToken(name: string, spec: Option<string>) {
    /** The token as it is written in a template. */
    function Text(): string {
      "{" + name + (if spec.Some? then ":" + spec.value else "") + "}"
    }

    /** The name is one or more word characters; the spec holds no `}`. */
    predicate Valid() {
      && |name| >= 1
      && (forall i :: 0 <= i < |name| ==> IsWordChar(name[i]))
      && (spec.Some? ==> forall i :: 0 <= i < |spec.value| ==> spec.value[i] != '}')
    }

    /** The text after the colon, or empty when there is no colon part. */
    function FormatOrFallback(): string {
      OrEmpty(spec)
    }
  }

  /** The first position at or after `i` that is not a word character, or `|s|`. */
  function WordEnd(s: string, i: nat): (j: nat)
    requires i <= |s|
    ensures i <= j <= |s|
    ensures forall k :: i <= k < j ==> IsWordChar(s[k])
    ensures j < |s| ==> !IsWordChar(s[j])
    decreases |s| - i
  {
    if i == |s| || !IsWordChar(s[i]) then i else WordEnd(s, i + 1)
  }

  /** The first position at or after `i` that holds `}`, or `|s|`. */
  function NextClose(s: string, i: nat): (j: nat)
    requires i <= |s|
    ensures i <= j <= |s|
    ensures forall k :: i <= k < j ==> s[k] != '}'
    ensures j < |s| ==> s[j] == '}'
    decreases |s| - i
  {
    if i == |s| || s[i] == '}' then i else NextClose(s, i + 1)
  }

  /** The characters of a token's text, position by position. */
  lemma TextLayout(t: NamedToken)
    ensures var m := |t.name|;
      && t.Text()[0] == '{'
      && t.Text()[1..m + 1] == t.name
      && (t.spec.None? ==> |t.Text()| == m + 2 && t.Text()[m + 1] == '}')
      && (t.spec.Some? ==>
            && |t.Text()| == m + 3 + |t.spec.value|
            && t.Text()[m + 1] == ':'
            && t.Text()[m + 2..m + 2 + |t.spec.value|] == t.spec.value
            && t.Text()[m + 2 + |t.spec.value|] == '}')
  {
    var m := |t.name|;
    if t.spec.Some? {
      var x := t.spec.value;
      assert t.Text() == "{" + t.name + ":" + x + "}";
      assert t.Text()[m + 2..m + 2 + |x|] == x;
    } else {
      assert t.Text() == "{" + t.name + "}";
    }
  }

  /** `t` is a valid named token and `s` begins with it. */
  predicate BeginsWith(s: string, t: NamedToken) {
    t.Valid() && t.Text() <= s
  }

  /** WordEnd stops exactly after a run of word characters ending before a non-word one. */
  lemma WordEndIs(s: string, i: nat, j: nat)
    requires i <= j < |s| && !IsWordChar(s[j])
    requires forall k :: i <= k < j ==> IsWordChar(s[k])
    ensures WordEnd(s, i) == j
  {
  }

  /** NextClose stops exactly at the first `}`. */
  lemma NextCloseIs(s: string, i: nat, j: nat)
    requires i <= j < |s| && s[j] == '}'
    requires forall k :: i <= k < j ==> s[k] != '}'
    ensures NextClose(s, i) == j
  {
  }

  /**
   * A valid named token at the head of `s` is exactly what the scanner's
   * steps find: the maximal word run after `{`, then `}` or `:` followed by
   * the text up to the first `}`.
   */
  lemma ScannerFinds(s: string, t: NamedToken)
    requires BeginsWith(s, t)
    ensures var m := |t.name|;
      && |s| >= 3 && s[0] == '{'
      && WordEnd(s, 1) == m + 1 < |s|
      && t.name == s[1..m + 1]
      && (t.spec.None? ==> s[m + 1] == '}')
      && (t.spec.Some? ==>
            && s[m + 1] == ':'
            && NextClose(s, m + 2) == m + 2 + |t.spec.value| < |s|
            && t.spec.value == s[m + 2..m + 2 + |t.spec.value|])
  {
    ScannerFindsName(s, t);
    if t.spec.Some? {
      ScannerFindsSpec(s, t);
    }
  }

  lemma ScannerFindsName(s: string, t: NamedToken)
    requires BeginsWith(s, t)
    ensures var m := |t.name|;
      && |s| >= 3 && s[0] == '{'
      && WordEnd(s, 1) == m + 1 < |s|
      && t.name == s[1..m + 1]
      && (t.spec.None? ==> s[m + 1] == '}')
      && (t.spec.Some? ==> s[m + 1] == ':')
  {
    TextLayout(t);
    var m, text := |t.name|, t.Text();
    PrefixSlice(s, text, 1, m + 1);
    assert forall k :: 1 <= k < m + 1 ==> s[k] == t.name[k - 1];
    WordEndIs(s, 1, m + 1);
  }

  lemma ScannerFindsSpec(s: string, t: NamedToken)
    requires BeginsWith(s, t) && t.spec.Some?
    ensures var m, x := |t.name|, t.spec.value;
      && NextClose(s, m + 2) == m + 2 + |x| < |s|
      && x == s[m + 2..m + 2 + |x|]
  {
    TextLayout(t);
    var m, x, text := |t.name|, t.spec.value, t.Text();
    PrefixSlice(s, text, m + 2, m + 2 + |x|);
    assert forall k :: m + 2 <= k < m + 2 + |x| ==> s[k] == x[k - m - 2];
    NextCloseIs(s, m + 2, m + 2 + |x|);
  }

  /** A slice of a prefix of `s` is the same slice of `s`. */
  lemma PrefixSlice(s: string, p: string, i: nat, j: nat)
    requires p <= s && i <= j <= |p|
    ensures s[i..j] == p[i..j] && |p| <= |s|
    ensures forall k :: 0 <= k < |p| ==> s[k] == p[k]
  {
    assert s[..|p|] == p;
  }

  /** The named token that begins `s`, if one does; NamedAtFinds shows that it misses none. */
  function NamedAt(s: string): (r: Option<NamedToken>)
    ensures r.Some? ==> BeginsWith(s, r.value)
  {
    if |s| < 3 || s[0] != '{' then None
    else
      var j := WordEnd(s, 1);
      if j == 1 || j == |s| then None
      else if s[j] == '}' then
        BareTokenAt(s, j);
        Some(NamedToken(s[1..j], None))
      else if s[j] == ':' then
        var e := NextClose(s, j + 1);
        if e == |s| then None
        else
          SpecTokenAt(s, j, e);
          Some(NamedToken(s[1..j], Some(s[j + 1..e])))
      else None
  }

  /** A word run from position 1 to `j`, closed by `}` at `j`, is a token without a spec. */
  lemma BareTokenAt(s: string, j: nat)
    requires 1 < j < |s| && s[0] == '{' && s[j] == '}'
    requires forall k :: 1 <= k < j ==> IsWordChar(s[k])
    ensures BeginsWith(s, NamedToken(s[1..j], None))
  {
    var t := NamedToken(s[1..j], None);
    assert t.Text() == s[..j + 1];
  }

  /** A word run from position 1 to `j`, then `:` and brace-free text up to `}` at `e`, is a token with a spec. */
  lemma SpecTokenAt(s: string, j: nat, e: nat)
    requires 1 < j < e < |s| && s[0] == '{' && s[j] == ':' && s[e] == '}'
    requires forall k :: 1 <= k < j ==> IsWordChar(s[k])
    requires forall k :: j + 1 <= k < e ==> s[k] != '}'
    ensures BeginsWith(s, NamedToken(s[1..j], Some(s[j + 1..e])))
  {
    var t := NamedToken(s[1..j], Some(s[j + 1..e]));
    assert t.Text() == s[..e + 1];
  }

  /** Whatever valid named token begins `s` is the one NamedAt reports. */
  lemma NamedAtFinds(s: string, t: NamedToken)
    requires BeginsWith(s, t)
    ensures NamedAt(s) == Some(t)
  {
    ScannerFinds(s, t);
  }

  datatype NamedPiece = NLit(c: char) | NToken(token: NamedToken)

  function NamedText(p: NamedPiece): string {
    match p
    case NLit(c) => [c]
    case NToken(t) => t.Text()
  }

  function NamedJoin(ps: seq<NamedPiece>): string
    decreases |ps|
  {
    if ps == [] then [] else NamedText(ps[0]) + NamedJoin(ps[1..])
  }

  /** The named tokens of `s`, leftmost first, with the text between them. */
  function NamedScan(s: string): seq<NamedPiece>
    decreases |s|
  {
    if s == [] then []
    else
      match NamedAt(s)
      case Some(t) => [NToken(t)] + NamedScan(s[|t.Text()|..])
      case None => [NLit(s[0])] + NamedScan(s[1..])
  }

  /** Joining the pieces of a named scan gives back the template. */
  lemma {:induction false} NamedScanJoin(s: string)
    ensures NamedJoin(NamedScan(s)) == s
    decreases |s|
  {
    if s != [] {
      var p := if NamedAt(s).Some? then NToken(NamedAt(s).value) else NLit(s[0]);
      var n := |NamedText(p)|;
      NamedHead(s);
      NamedScanJoin(s[n..]);
      NamedJoinCons(p, NamedScan(s[n..]));
    }
  }

  /** The piece the named scanner takes from the head of `s` spells its first characters. */
  lemma NamedHead(s: string)
    requires s != []
    ensures var p := if NamedAt(s).Some? then NToken(NamedAt(s).value) else NLit(s[0]);
      && 1 <= |NamedText(p)| <= |s|
      && NamedScan(s) == [p] + NamedScan(s[|NamedText(p)|..])
      && s == NamedText(p) + s[|NamedText(p)|..]
  {
    if NamedAt(s).Some? {
      var t := NamedAt(s).value;
      assert s[..|t.Text()|] == t.Text();
    } else {
      assert s == [s[0]] + s[1..];
    }
  }

  lemma NamedJoinCons(p: NamedPiece, ps: seq<NamedPiece>)
    ensures NamedJoin([p] + ps) == NamedText(p) + NamedJoin(ps)
  {
    assert ([p] + ps)[1..] == ps;
  }
}

/** How the scanners treat literal text and whole tokens placed side by side. */
module TokenLemmas {
  import opened Wrappers
  import opened Tokens

  /** Literal pieces, one per character of `p`. */
  function GLits(p: string): seq<GenericPiece> {
    seq(|p|, i requires 0 <= i < |p| => GLit(p[i]))
  }

  function NLits(p: string): seq<NamedPiece> {
    seq(|p|, i requires 0 <= i < |p| => NLit(p[i]))
  }

  /** The generic scan of `s` is its literal text up to `sp`, the token at `sp`, and the scan after it. */
  predicate SplitsAt(s: string, sp: Span) {
    SplitsBetween(s, sp.start, sp.end)
  }

  predicate SplitsBetween(s: string, a: nat, e: nat) {
    && a + 3 <= e <= |s|
    && GenericScan(s) == GLits(s[..a]) + [GToken(s[a + 1..e - 1])] + GenericScan(s[e..])
  }

  /**
   * The generic scan of `s` is the text before its leftmost token, that
   * token, and the scan of what follows it; with no token, all literals.
   */
  lemma {:induction false} ScanAroundFirst(s: string)
    ensures FirstGeneric(s).None? ==> GenericScan(s) == GLits(s)
    ensures FirstGeneric(s).Some? ==> SplitsAt(s, FirstGeneric(s).value)
    decreases |s|
  {
    if s == [] {
      assert GLits(s) == [];
    } else if GenericAt(s).Some? {
      ScanAroundFirstHere(s);
    } else {
      ScanAroundFirst(s[1..]);
      if FirstGeneric(s[1..]).Some? {
        ScanAroundFirstLater(s, FirstGeneric(s[1..]).value);
      } else {
        ScanAroundNone(s);
      }
    }
  }

  lemma ScanAroundFirstHere(s: string)
    requires s != [] && GenericAt(s).Some?
    ensures FirstGeneric(s) == Some(Span(0, GenericAt(s).value))
    ensures SplitsAt(s, Span(0, GenericAt(s).value))
  {
    var n := GenericAt(s).value;
    GenericPrefixShape(s, n);
    assert s[..0] == [] && GLits([]) == [];
  }

  lemma ScanAroundNone(s: string)
    requires s != [] && GenericAt(s).None? && GenericScan(s[1..]) == GLits(s[1..])
    ensures GenericScan(s) == GLits(s)
  {
    LitsCons(s);
  }

  /** The inductive step of ScanAroundFirst when the token starts after position 0. */
  lemma ScanAroundFirstLater(s: string, sp: Span)
    requires s != [] && GenericAt(s).None? && SplitsAt(s[1..], sp)
    ensures SplitsAt(s, Span(sp.start + 1, sp.end + 1))
  {
    ShiftSplit(s, sp.start, sp.end);
  }

  lemma ShiftSplit(s: string, a: nat, e: nat)
    requires s != [] && GenericAt(s).None? && SplitsBetween(s[1..], a, e)
    ensures SplitsBetween(s, a + 1, e + 1)
  {
    TailSlices(s, a, e);
    ScanStep(s);
    LitsCons(s[..a + 1]);
    ConsSplit(GLit(s[0]), GLits(s[1..a + 1]), GLits(s[..a + 1]), [GToken(s[a + 2..e])], GenericScan(s[e + 1..]),
              GenericScan(s), GenericScan(s[1..]));
  }

  /** Slices of `s[1..]` as slices of `s`. */
  lemma TailSlices(s: string, a: nat, e: nat)
    requires a + 2 <= e < |s|
    ensures s[..a + 1][1..] == s[1..a + 1]
    ensures GLits(s[1..][..a]) == GLits(s[1..a + 1])
    ensures GToken(s[1..][a + 1..e - 1]) == GToken(s[a + 2..e])
    ensures GenericScan(s[1..][e..]) == GenericScan(s[e + 1..])
  {
    assert s[1..][..a] == s[1..a + 1];
    assert s[1..][a + 1..e - 1] == s[a + 2..e];
    assert s[1..][e..] == s[e + 1..];
  }

  /** Consing onto a three-part sequence extends its first part. */
  lemma ConsSplit<T>(x: T, l: seq<T>, xl: seq<T>, m: seq<T>, r: seq<T>, whole: seq<T>, tail: seq<T>)
    requires whole == [x] + tail && tail == l + m + r && xl == [x] + l
    ensures whole == xl + m + r
  {
  }

  lemma LitsCons(p: string)
    requires p != []
    ensures GLits(p) == [GLit(p[0])] + GLits(p[1..])
  {
  }

  /** A character other than `{` is scanned as a literal, by both scanners. */
  lemma ScanLiteral(c: char, s: string)
    requires c != '{'
    ensures GenericScan([c] + s) == [GLit(c)] + GenericScan(s)
    ensures NamedScan([c] + s) == [NLit(c)] + NamedScan(s)
  {
    assert ([c] + s)[1..] == s;
  }

  /** Text without `{` is scanned as literals by the generic scanner. */
  lemma {:induction false} GenericScanLiteralText(p: string, s: string)
    requires forall i :: 0 <= i < |p| ==> p[i] != '{'
    ensures GenericScan(p + s) == GLits(p) + GenericScan(s)
    decreases |p|
  {
    if p != [] {
      var q := p[1..];
      calc {
        GenericScan(p + s);
        { assert p + s == [p[0]] + (q + s); }
        GenericScan([p[0]] + (q + s));
        { ScanLiteral(p[0], q + s); }
        [GLit(p[0])] + GenericScan(q + s);
        { GenericScanLiteralText(q, s); }
        [GLit(p[0])] + (GLits(q) + GenericScan(s));
        { assert GLits(p) == [GLit(p[0])] + GLits(q); }
        GLits(p) + GenericScan(s);
      }
    } else {
      assert p + s == s;
      assert GLits(p) + GenericScan(s) == GenericScan(s);
    }
  }

  /** Text without `{` is scanned as literals by the named scanner. */
  lemma {:induction false} NamedScanLiteralText(p: string, s: string)
    requires forall i :: 0 <= i < |p| ==> p[i] != '{'
    ensures NamedScan(p + s) == NLits(p) + NamedScan(s)
    decreases |p|
  {
    if p != [] {
      var q := p[1..];
      calc {
        NamedScan(p + s);
        { assert p + s == [p[0]] + (q + s); }
        NamedScan([p[0]] + (q + s));
        { ScanLiteral(p[0], q + s); }
        [NLit(p[0])] + NamedScan(q + s);
        { NamedScanLiteralText(q, s); }
        [NLit(p[0])] + (NLits(q) + NamedScan(s));
        { assert NLits(p) == [NLit(p[0])] + NLits(q); }
        NLits(p) + NamedScan(s);
      }
    } else {
      assert p + s == s;
      assert NLits(p) + NamedScan(s) == NamedScan(s);
    }
  }

  /** A whole generic token is scanned as one token piece. */
  lemma ScanGenericToken(t: string, s: string)
    requires IsGenericToken(t)
    ensures GenericScan(t + s) == [GToken(t[1..|t| - 1])] + GenericScan(s)
  {
    assert (t + s)[..|t|] == t;
    GenericAtFinds(t + s, |t|);
    assert (t + s)[1..|t| - 1] == t[1..|t| - 1];
    assert (t + s)[|t|..] == s;
  }

  /** A whole valid named token is scanned as one token piece. */
  lemma ScanNamedToken(t: NamedToken, s: string)
    requires t.Valid()
    ensures NamedScan(t.Text() + s) == [NToken(t)] + NamedScan(s)
  {
    var u := t.Text() + s;
    assert u[..|t.Text()|] == t.Text();
    NamedAtFinds(u, t);
    assert u[|t.Text()|..] == s;
  }
}
