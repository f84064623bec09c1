/**
 * The fills: the single-value fill and the positional fill over generic
 * tokens, and the dictionary fill and object fill over named tokens.
 * A template of `None` stands for a null string.
 */
module Fills {
  import opened Wrappers
  import opened Tokens
  import opened TokenLemmas
  import opened Dicts
  import opened Options
  import opened Models

  /** A null or empty template, which every fill returns as it is. */
  predicate NullOrEmpty(template: Option<string>) {
    template.None? || template == Some([])
  }

  /**
   * The value holds no `$`. The single-value fill hands its value to the
   * regular-expression engine as a replacement pattern, which is literal
   * text exactly when it holds no `$`.
   */
  predicate DollarFree(v: string) {
    forall i :: 0 <= i < |v| ==> v[i] != '$'
  }

  function Min(a: nat, b: nat): nat {
    if a <= b then a else b
  }

  // ----------------------------------------------------------------------
  // Single-value fill

  /** Replaces the leftmost generic token by the value (empty when null). */
  function FillOne(template: Option<string>, value: Option<string>): Option<string>
    requires DollarFree(OrEmpty(value))
  {
    match template
    case None => None
    case Some(s) =>
      if s == [] then template
      else
        FirstGenericIsLeftmost(s);
        match FirstGeneric(s)
        case None => template
        case Some(sp) => Some(s[..sp.start] + OrEmpty(value) + s[sp.end..])
  }

  /**
   * The single-value fill keeps a null or empty template; otherwise it
   * replaces the leftmost generic token, at `a` up to `e`, by the value and
   * keeps everything else; with no token anywhere, the template is unchanged.
   */
  lemma FillOneReplacesLeftmost(s: string, value: Option<string>)
    requires s != [] && DollarFree(OrEmpty(value))
    ensures FillOne(None, value) == None && FillOne(Some([]), value) == Some([])
    ensures (forall p :: 0 <= p < |s| ==> NoGenericAt(s, p)) ==> FillOne(Some(s), value) == Some(s)
    ensures (exists p :: 0 <= p < |s| && !NoGenericAt(s, p)) ==>
      exists a: nat, e: nat :: a < e <= |s| && GenericPrefix(s[a..], e - a)
        && (forall p :: 0 <= p < a ==> NoGenericAt(s, p))
        && FillOne(Some(s), value) == Some(s[..a] + OrEmpty(value) + s[e..])
  {
    FirstGenericIsLeftmost(s);
    if FirstGeneric(s).Some? {
      var a, e := FirstGeneric(s).value.start, FirstGeneric(s).value.end;
      assert !NoGenericAt(s, a);
      assert GenericPrefix(s[a..], e - a);
      assert FillOne(Some(s), value) == Some(s[..a] + OrEmpty(value) + s[e..]);
    }
  }

  // ----------------------------------------------------------------------
  // Positional fill

  /**
   * The positional fill's output for the pieces `ps` when the running
   * counter stands at `i`: a token takes `values[i]` and advances the
   * counter while values remain, and is kept as written after that.
   */
  function Positional(ps: seq<GenericPiece>, values: seq<Option<string>>, i: nat): string
    requires i <= |values|
    decreases |ps|
  {
    if ps == [] then []
    else
      match ps[0]
      case GLit(c) => [c] + Positional(ps[1..], values, i)
      case GToken(_) =>
        if i < |values| then OrEmpty(values[i]) + Positional(ps[1..], values, i + 1)
        else GenericText(ps[0]) + Positional(ps[1..], values, i)
  }

  /**
   * The same output stated by position: the token with ordinal `k`
   * (counting from the first token of `ps` as `k`) becomes `values[k]`
   * when there is one, and stays as written otherwise.
   */
  function ByOrdinal(ps: seq<GenericPiece>, values: seq<Option<string>>, k: nat): string
    decreases |ps|
  {
    if ps == [] then []
    else
      match ps[0]
      case GLit(c) => [c] + ByOrdinal(ps[1..], values, k)
      case GToken(_) =>
        (if k < |values| then OrEmpty(values[k]) else GenericText(ps[0])) + ByOrdinal(ps[1..], values, k + 1)
  }

  /** The running counter puts `values[k]` into the token with ordinal `k`. */
  lemma {:induction false} PositionalIsByOrdinal(ps: seq<GenericPiece>, values: seq<Option<string>>, k: nat)
    ensures Positional(ps, values, Min(k, |values|)) == ByOrdinal(ps, values, k)
    decreases |ps|
  {
    if ps != [] {
      match ps[0]
      case GLit(_) =>
        PositionalIsByOrdinal(ps[1..], values, k);
      case GToken(_) =>
        PositionalIsByOrdinal(ps[1..], values, k + 1);
        if k < |values| {
          assert Min(k, |values|) == k && Min(k + 1, |values|) == k + 1;
        } else {
          assert Min(k, |values|) == |values| == Min(k + 1, |values|);
        }
    }
  }

  /** Once the values have run out, every remaining piece is kept as written. */
  lemma {:induction false} ShortfallKeepsTokens(ps: seq<GenericPiece>, values: seq<Option<string>>, k: nat)
    requires |values| <= k
    ensures ByOrdinal(ps, values, k) == GenericJoin(ps)
    decreases |ps|
  {
    if ps != [] {
      ShortfallKeepsTokens(ps[1..], values, k + 1);
      ShortfallKeepsTokens(ps[1..], values, k);
    }
  }

  /** Values beyond the number of tokens are never used. */
  lemma {:induction false} SurplusValuesIgnored(ps: seq<GenericPiece>, values: seq<Option<string>>, extra: seq<Option<string>>, k: nat)
    requires k + TokenCount(ps) <= |values|
    ensures ByOrdinal(ps, values + extra, k) == ByOrdinal(ps, values, k)
    decreases |ps|
  {
    if ps != [] {
      if ps[0].GToken? {
        SurplusValuesIgnored(ps[1..], values, extra, k + 1);
        assert (values + extra)[k] == values[k];
      } else {
        SurplusValuesIgnored(ps[1..], values, extra, k);
      }
    }
  }

  /** The positional fill of a whole template. */
  function PositionalFill(template: Option<string>, values: seq<Option<string>>): Option<string> {
    if NullOrEmpty(template) then template
    else Some(Positional(GenericScan(template.value), values, 0))
  }

  /**
   * The positional fill with its running counter: the matches are visited
   * left to right, and each takes the next value while values remain.
   * `used` is the counter's final value: one per value consumed, which is
   * the number of tokens or of values, whichever is smaller.
   */
  method FillPositional(template: Option<string>, values: seq<Option<string>>) returns (r: Option<string>, used: nat)
    ensures r == PositionalFill(template, values)
    ensures used == if NullOrEmpty(template) then 0 else Min(TokenCount(GenericScan(template.value)), |values|)
  {
    if NullOrEmpty(template) {
      return template, 0;
    }
    var out;
    out, used := FillPieces(GenericScan(template.value), values);
    r := Some(out);
  }

  /** The match loop of the positional fill over the scanned pieces. */
  method FillPieces(ps: seq<GenericPiece>, values: seq<Option<string>>) returns (out: string, used: nat)
    ensures out == Positional(ps, values, 0)
    ensures used == Min(TokenCount(ps), |values|)
  {
    out := [];
    var i: nat := 0;
    var k: nat := 0;
    ghost var seen: nat := 0;
    while k < |ps|
      invariant k <= |ps| && i <= |values|
      invariant out + Positional(ps[k..], values, i) == Positional(ps, values, 0)
      invariant seen + TokenCount(ps[k..]) == TokenCount(ps)
      invariant i == Min(seen, |values|)
      decreases |ps| - k
    {
      PositionalStep(ps, k, values, i);
      var piece: string;
      if ps[k].GLit? {
        piece := [ps[k].c];
      } else if i < |values| {
        piece := OrEmpty(values[i]);
        i := i + 1;
        seen := seen + 1;
      } else {
        piece := GenericText(ps[k]);
        seen := seen + 1;
      }
      AppendAssoc(out, piece, Positional(ps[k + 1..], values, i));
      out := out + piece;
      k := k + 1;
    }
    assert ps[k..] == [];
    assert out + Positional([], values, i) == out;
    used := i;
  }

  lemma AppendAssoc(a: string, b: string, c: string)
    ensures (a + b) + c == a + (b + c)
  {
  }

  /** The positional output from piece `k` on, one piece at a time. */
  lemma PositionalStep(ps: seq<GenericPiece>, k: nat, values: seq<Option<string>>, i: nat)
    requires k < |ps| && i <= |values|
    ensures ps[k].GLit? ==> Positional(ps[k..], values, i) == [ps[k].c] + Positional(ps[k + 1..], values, i)
    ensures ps[k].GToken? && i < |values| ==>
      Positional(ps[k..], values, i) == OrEmpty(values[i]) + Positional(ps[k + 1..], values, i + 1)
    ensures ps[k].GToken? && i == |values| ==>
      Positional(ps[k..], values, i) == GenericText(ps[k]) + Positional(ps[k + 1..], values, i)
    ensures TokenCount(ps[k..]) == (if ps[k].GToken? then 1 else 0) + TokenCount(ps[k + 1..])
  {
    assert ps[k..][1..] == ps[k + 1..];
  }

  /** With no values, the positional fill returns the template. */
  lemma NoValuesKeepsTemplate(template: Option<string>)
    ensures PositionalFill(template, []) == template
  {
    if !NullOrEmpty(template) {
      var s := template.value;
      PositionalIsByOrdinal(GenericScan(s), [], 0);
      ShortfallKeepsTokens(GenericScan(s), [], 0);
      GenericScanJoin(s);
    }
  }

  /** The single-value fill is the positional fill with that one value. */
  lemma FillOneIsFirstPositional(template: Option<string>, value: Option<string>)
    requires DollarFree(OrEmpty(value))
    ensures FillOne(template, value) == PositionalFill(template, [value])
  {
    if !NullOrEmpty(template) {
      var s := template.value;
      ScanAroundFirst(s);
      if FirstGeneric(s).None? {
        PositionalOfLits(s, [value], 0);
      } else {
        OneValueAroundFirst(s, FirstGeneric(s).value, value);
      }
    }
  }

  /** With one value, the positional fill replaces the token `sp` splits at and keeps the rest. */
  lemma OneValueAroundFirst(s: string, sp: Span, value: Option<string>)
    requires SplitsAt(s, sp)
    ensures Positional(GenericScan(s), [value], 0) == s[..sp.start] + OrEmpty(value) + s[sp.end..]
  {
    var a, e := sp.start, sp.end;
    var after := GenericScan(s[e..]);
    assert GenericScan(s) == GLits(s[..a]) + ([GToken(s[a + 1..e - 1])] + after);
    OneValueOneToken(s[..a], s[a + 1..e - 1], after, value);
    GenericScanJoin(s[e..]);
  }

  /** Literal text, one token and more pieces, filled with one value. */
  lemma OneValueOneToken(p: string, body: string, after: seq<GenericPiece>, value: Option<string>)
    ensures Positional(GLits(p) + ([GToken(body)] + after), [value], 0) == p + OrEmpty(value) + GenericJoin(after)
  {
    var rest := [GToken(body)] + after;
    PositionalOfLits(p, [value], 0);
    PositionalAppend(GLits(p), rest, [value], 0);
    assert rest[1..] == after;
    assert Positional(rest, [value], 0) == OrEmpty(value) + Positional(after, [value], 1);
    PositionalIsByOrdinal(after, [value], 1);
    ShortfallKeepsTokens(after, [value], 1);
  }

  /** Literal pieces come out as their characters and leave the counter alone. */
  lemma {:induction false} PositionalOfLits(p: string, values: seq<Option<string>>, i: nat)
    requires i <= |values|
    ensures Positional(GLits(p), values, i) == p
    ensures TokenCount(GLits(p)) == 0
    decreases |p|
  {
    if p != [] {
      LitsCons(p);
      assert GLits(p)[1..] == GLits(p[1..]);
      PositionalOfLits(p[1..], values, i);
    } else {
      assert GLits(p) == [];
    }
  }

  /** The positional output of two runs of pieces, the counter carried across. */
  lemma {:induction false} PositionalAppend(a: seq<GenericPiece>, b: seq<GenericPiece>, values: seq<Option<string>>, i: nat)
    requires i <= |values| && TokenCount(a) == 0
    ensures Positional(a + b, values, i) == Positional(a, values, i) + Positional(b, values, i)
    decreases |a|
  {
    if a == [] {
      assert a + b == b;
    } else {
      assert (a + b)[0] == a[0] && (a + b)[1..] == a[1..] + b;
      PositionalAppend(a[1..], b, values, i);
    }
  }

  /**
   * The positional fill, token by token: text without `{` is kept, the
   * token takes the value at the counter (or stays as written once the
   * values are used up), and the rest goes on from the advanced counter.
   */
  lemma PositionalSplit(p: string, tok: string, q: string, values: seq<Option<string>>, i: nat)
    requires forall k :: 0 <= k < |p| ==> p[k] != '{'
    requires IsGenericToken(tok) && i <= |values|
    ensures Positional(GenericScan(p + tok + q), values, i)
      == p + (if i < |values| then OrEmpty(values[i]) else tok)
        + Positional(GenericScan(q), values, if i < |values| then i + 1 else i)
  {
    var rest := [GToken(tok[1..|tok| - 1])] + GenericScan(q);
    ScanTextThenToken(p, tok, q);
    PositionalOfLits(p, values, i);
    PositionalAppend(GLits(p), rest, values, i);
    PositionalTokenHead(tok, GenericScan(q), values, i);
  }

  lemma ScanTextThenToken(p: string, tok: string, q: string)
    requires forall k :: 0 <= k < |p| ==> p[k] != '{'
    requires IsGenericToken(tok)
    ensures GenericScan(p + tok + q) == GLits(p) + ([GToken(tok[1..|tok| - 1])] + GenericScan(q))
  {
    assert p + tok + q == p + (tok + q);
    GenericScanLiteralText(p, tok + q);
    ScanGenericToken(tok, q);
  }

  lemma PositionalTokenHead(tok: string, after: seq<GenericPiece>, values: seq<Option<string>>, i: nat)
    requires IsGenericToken(tok) && i <= |values|
    ensures Positional([GToken(tok[1..|tok| - 1])] + after, values, i)
      == (if i < |values| then OrEmpty(values[i]) else tok)
        + Positional(after, values, if i < |values| then i + 1 else i)
  {
    var rest := [GToken(tok[1..|tok| - 1])] + after;
    assert rest[1..] == after;
    assert "{" + tok[1..|tok| - 1] + "}" == tok;
  }

  // ----------------------------------------------------------------------
  // Named fills

  /** The output of a named fill: literals as they are, each token replaced by `f`. */
  function ReplaceNamed(ps: seq<NamedPiece>, f: NamedToken -> string): string
    decreases |ps|
  {
    if ps == [] then []
    else
      (match ps[0]
       case NLit(c) => [c]
       case NToken(t) => f(t))
      + ReplaceNamed(ps[1..], f)
  }

  /** The dictionary fill's text for one token: a present, non-null, non-empty value, else the fallback. */
  function DictReplacement(values: Dict<Option<string>>, t: NamedToken): string {
    match values.TryGet(t.name)
    case Some(Some(v)) => if v != [] then v else t.FormatOrFallback()
    case _ => t.FormatOrFallback()
  }

  /** The dictionary fill. */
  function DictFill(template: Option<string>, values: Dict<Option<string>>): Option<string> {
    if NullOrEmpty(template) then template
    else Some(ReplaceNamed(NamedScan(template.value), t => DictReplacement(values, t)))
  }

  /**
   * The object fill's text for one token. A found, non-null value is
   * formatted with the spec when it is formattable and the spec is
   * non-empty (the spec itself when formatting throws), and is its
   * `ToString()` otherwise; a missing or null value gives the spec.
   */
  function ObjectReplacement(values: Dict<Option<Value>>, culture: Culture, t: NamedToken): string {
    var spec := t.FormatOrFallback();
    match values.TryGet(t.name)
    case Some(Some(v)) =>
      if v.format.Some? && spec != [] then
        match v.format.value(spec, culture)
        case Formatted(text) => OrEmpty(text)
        case FormatFailed => spec
      else OrEmpty(v.text)
    case _ => spec
  }

  /** The object fill, `FillWithObjects`, formatting in the resolved culture. */
  function FillWithObjects(template: Option<string>, values: Dict<Option<Value>>, culture: Option<Culture>,
                           options: SmartStringsOptions, current: Culture): Option<string>
  {
    if NullOrEmpty(template) then template
    else
      var resolved := ResolveCulture(culture, options, current);
      Some(ReplaceNamed(NamedScan(template.value), t => ObjectReplacement(values, resolved, t)))
  }

  lemma {:induction false} ReplaceNamedAppend(a: seq<NamedPiece>, b: seq<NamedPiece>, f: NamedToken -> string)
    ensures ReplaceNamed(a + b, f) == ReplaceNamed(a, f) + ReplaceNamed(b, f)
    decreases |a|
  {
    if a == [] {
      assert a + b == b;
    } else {
      assert (a + b)[0] == a[0] && (a + b)[1..] == a[1..] + b;
      ReplaceNamedAppend(a[1..], b, f);
    }
  }

  lemma {:induction false} ReplaceLits(p: string, f: NamedToken -> string)
    ensures ReplaceNamed(NLits(p), f) == p
    decreases |p|
  {
    if p != [] {
      assert NLits(p)[1..] == NLits(p[1..]);
      ReplaceLits(p[1..], f);
    } else {
      assert NLits(p) == [];
    }
  }

  /**
   * A named fill in one stroke: text without `{` is kept, the token that
   * follows is replaced by `f`, and what follows the token is filled on its
   * own. The replacement text is never scanned again, so braces inside an
   * inserted value stay as they are.
   */
  lemma NamedFillSplit(p: string, t: NamedToken, q: string, f: NamedToken -> string)
    requires forall i :: 0 <= i < |p| ==> p[i] != '{'
    requires t.Valid()
    ensures ReplaceNamed(NamedScan(p + t.Text() + q), f) == p + f(t) + ReplaceNamed(NamedScan(q), f)
  {
    assert p + t.Text() + q == p + (t.Text() + q);
    NamedScanLiteralText(p, t.Text() + q);
    ScanNamedToken(t, q);
    ReplaceNamedAppend(NLits(p), [NToken(t)] + NamedScan(q), f);
    ReplaceLits(p, f);
    assert ([NToken(t)] + NamedScan(q))[1..] == NamedScan(q);
  }

  /** Text without `{` comes out of a named fill unchanged. */
  lemma NamedFillLiteral(p: string, f: NamedToken -> string)
    requires forall i :: 0 <= i < |p| ==> p[i] != '{'
    ensures ReplaceNamed(NamedScan(p), f) == p
  {
    assert p + [] == p;
    NamedScanLiteralText(p, []);
    assert NLits(p) + [] == NLits(p);
    ReplaceLits(p, f);
  }

  /**
   * A `{` whose word run stops at a character other than `}` or `:` (a
   * name with a non-word character, or no name at all) starts no token:
   * the fill keeps that `{` and carries on after it.
   */
  lemma BadNameKept(s: string, j: nat, f: NamedToken -> string)
    requires 1 <= j < |s| && s[0] == '{' && !IsWordChar(s[j]) && (j == 1 || (s[j] != '}' && s[j] != ':'))
    requires forall k :: 1 <= k < j ==> IsWordChar(s[k])
    ensures NamedAt(s).None?
    ensures ReplaceNamed(NamedScan(s), f) == "{" + ReplaceNamed(NamedScan(s[1..]), f)
  {
    WordEndIs(s, 1, j);
    var ps := NamedScan(s);
    assert ps == [NLit('{')] + NamedScan(s[1..]);
    assert ps[1..] == NamedScan(s[1..]);
  }

  /**
   * The dictionary fill, token by token: text without `{` is kept, the
   * token becomes its DictReplacement, and the rest of the template is
   * filled on its own.
   */
  lemma DictFillSplit(p: string, t: NamedToken, q: string, values: Dict<Option<string>>)
    requires forall i :: 0 <= i < |p| ==> p[i] != '{'
    requires t.Valid()
    ensures DictFill(Some(p + t.Text() + q), values)
      == Some(p + DictReplacement(values, t) + OrEmpty(DictFill(Some(q), values)))
  {
    NamedFillSplit(p, t, q, u => DictReplacement(values, u));
  }

  /**
   * The object fill, token by token, in the resolved culture: a found,
   * non-null value is formatted with a non-empty spec when formattable
   * (the spec itself when formatting fails) and otherwise is its
   * `ToString()`; a missing or null value gives the spec text.
   */
  lemma ObjectFillSplit(p: string, t: NamedToken, q: string, values: Dict<Option<Value>>, culture: Option<Culture>,
                        options: SmartStringsOptions, current: Culture)
    requires forall i :: 0 <= i < |p| ==> p[i] != '{'
    requires t.Valid()
    ensures var c := ResolveCulture(culture, options, current);
      FillWithObjects(Some(p + t.Text() + q), values, culture, options, current)
      == Some(p + ObjectReplacement(values, c, t) + OrEmpty(FillWithObjects(Some(q), values, culture, options, current)))
    ensures var c := ResolveCulture(culture, options, current);
      match values.TryGet(t.name)
      case Some(Some(v)) =>
        (v.format.None? || t.FormatOrFallback() == [] ==> ObjectReplacement(values, c, t) == OrEmpty(v.text))
        && (v.format.Some? && t.FormatOrFallback() != [] && v.format.value(t.FormatOrFallback(), c).FormatFailed? ==>
              ObjectReplacement(values, c, t) == t.FormatOrFallback())
      case _ => ObjectReplacement(values, c, t) == OrEmpty(t.spec)
  {
    TextLayout(t);
    var c := ResolveCulture(culture, options, current);
    NamedFillSplit(p, t, q, u => ObjectReplacement(values, c, u));
  }

  /** With nothing to look up, every token of an object fill becomes its fallback text. */
  lemma ObjectFillEmptyGivesFallbacks(s: string, cmp: Comparer, culture: Option<Culture>,
                                      options: SmartStringsOptions, current: Culture)
    requires s != []
    ensures FillWithObjects(Some(s), Empty(cmp), culture, options, current)
      == Some(ReplaceNamed(NamedScan(s), (t: NamedToken) => t.FormatOrFallback()))
  {
    var c := ResolveCulture(culture, options, current);
    ReplaceSameOutput(NamedScan(s), t => ObjectReplacement(Empty(cmp), c, t), (t: NamedToken) => t.FormatOrFallback());
  }

  /** Two replacements that agree on every token of the pieces give the same output. */
  lemma {:induction false} ReplaceSameOutput(ps: seq<NamedPiece>, f: NamedToken -> string, g: NamedToken -> string)
    requires forall i :: 0 <= i < |ps| && ps[i].NToken? ==> f(ps[i].token) == g(ps[i].token)
    ensures ReplaceNamed(ps, f) == ReplaceNamed(ps, g)
    decreases |ps|
  {
    if ps != [] {
      ReplaceSameOutput(ps[1..], f, g);
    }
  }
}
