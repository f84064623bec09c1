/**
 * The two ways an object model reaches a named fill: the object fill
 * formats the property values themselves, the map fill first turns them
 * into text and then applies the dictionary fill's fallback rule. They
 * agree on every token whose value is not formatted and renders as
 * non-empty text, and differ on a value whose text is empty.
 */
module Agreement {
  import opened Wrappers
  import opened Tokens
  import opened Dicts
  import opened Options
  import opened Models
  import opened Fills
  import opened Engine
  import opened TemplateMaps

  /** The dictionary of the values' texts, with the same keys in the same order. */
  function TextDict(d: Dict<Option<Value>>): Dict<Option<string>> {
    Dict(d.comparer, Texts(d.entries))
  }

  function Texts(es: seq<Entry<Option<Value>>>): seq<Entry<Option<string>>> {
    seq(|es|, i requires 0 <= i < |es| => Entry(es[i].key, TextOf(es[i].value)))
  }

  /** Searching two entry lists with the same keys finds the same position. */
  lemma {:induction false} FindSameKeys<A, B>(cmp: Comparer, xs: seq<Entry<A>>, ys: seq<Entry<B>>, key: string, from: nat)
    requires |xs| == |ys| && from <= |xs|
    requires forall i :: 0 <= i < |xs| ==> xs[i].key == ys[i].key
    ensures Find(cmp, xs, key, from) == Find(cmp, ys, key, from)
    decreases |xs| - from
  {
    if from < |xs| {
      FindSameKeys(cmp, xs, ys, key, from + 1);
    }
  }

  /** Looking a key up among the texts gives the text of what the values hold. */
  lemma TextDictTryGet(d: Dict<Option<Value>>, k: string)
    ensures TextDict(d).TryGet(k) == match d.TryGet(k)
      case Some(v) => Some(TextOf(v))
      case None => None
  {
    FindSameKeys(d.comparer, d.entries, TextDict(d).entries, k, 0);
  }

  /** Writing a value and then taking texts is taking texts and then writing the value's text. */
  lemma TextDictPut(d: Dict<Option<Value>>, k: string, v: Option<Value>)
    ensures TextDict(d.Put(k, v)) == TextDict(d).Put(k, TextOf(v))
  {
    FindSameKeys(d.comparer, d.entries, TextDict(d).entries, k, 0);
    var l, r := TextDict(d.Put(k, v)), TextDict(d).Put(k, TextOf(v));
    assert |l.entries| == |r.entries|;
    assert forall i :: 0 <= i < |l.entries| ==> l.entries[i] == r.entries[i];
  }

  lemma {:induction false} TextDictOverlay(d: Dict<Option<Value>>, es: seq<Entry<Option<Value>>>)
    ensures TextDict(Overlay(d, es)) == Overlay(TextDict(d), Texts(es))
    decreases |es|
  {
    if es != [] {
      var n := |es| - 1;
      TextDictOverlay(d, es[..n]);
      TextDictPut(Overlay(d, es[..n]), es[n].key, es[n].value);
      assert Texts(es)[..n] == Texts(es[..n]);
    } else {
      assert Texts(es) == [];
    }
  }

  /** The map fill's extraction holds the texts of the object fill's projection. */
  lemma ExtractedIsTextOfProjection(scalar: bool, self: Value, properties: seq<Property>)
    ensures Extracted(Instance(scalar, self, properties)) == TextDict(Projection(properties))
  {
    TextDictOverlay(Empty(OrdinalIgnoreCase), ValueEntries(properties));
    assert Texts(ValueEntries(properties)) == TextEntries(properties);
    assert TextDict(Empty<Option<Value>>(OrdinalIgnoreCase)) == Empty(OrdinalIgnoreCase);
  }

  /** The value found for the token, if any, is neither formatted nor rendered as empty text. */
  predicate Agrees(values: Dict<Option<Value>>, t: NamedToken) {
    match values.TryGet(t.name)
    case Some(Some(v)) => (v.format.None? || t.FormatOrFallback() == []) && OrEmpty(v.text) != []
    case _ => true
  }

  /** Where the found value is not formatted and renders non-empty, both rules give the same text. */
  lemma ObjectAgreesWithDict(values: Dict<Option<Value>>, c: Culture, t: NamedToken)
    requires Agrees(values, t)
    ensures ObjectReplacement(values, c, t) == DictReplacement(TextDict(values), t)
  {
    TextDictTryGet(values, t.name);
  }

  /**
   * A found, non-formattable value whose text is empty: the object fill
   * inserts the empty text, the dictionary fill the fallback.
   */
  lemma EmptyTextDiverges(values: Dict<Option<Value>>, c: Culture, t: NamedToken)
    requires values.TryGet(t.name).Some? && values.TryGet(t.name).value.Some?
    requires values.TryGet(t.name).value.value.format.None? && values.TryGet(t.name).value.value.text == Some([])
    ensures ObjectReplacement(values, c, t) == []
    ensures DictReplacement(TextDict(values), t) == t.FormatOrFallback()
  {
    TextDictTryGet(values, t.name);
  }

  /**
   * For an object model, the map fill without a binder action gives what
   * the model fill gives, on every template whose tokens all meet Agrees.
   */
  lemma MapFillAgreesWithModelFill(s: string, self: Value, properties: seq<Property>, culture: Option<Culture>,
                                   options: SmartStringsOptions, current: Culture)
    requires s != []
    requires forall i :: 0 <= i < |NamedScan(s)| && NamedScan(s)[i].NToken? ==>
      Agrees(Projection(properties), NamedScan(s)[i].token)
    ensures MapFill(Some(s), Instance(false, self, properties), None)
      == ModelFill(Some(s), Instance(false, self, properties), culture, options, current).value
  {
    var model := Instance(false, self, properties);
    var c := ResolveCulture(culture, options, current);
    var values := Projection(properties);
    ExtractedIsTextOfProjection(false, self, properties);
    assert Merged(model, None) == Extracted(model);
    var ps := NamedScan(s);
    forall i | 0 <= i < |ps| && ps[i].NToken?
      ensures ObjectReplacement(values, c, ps[i].token) == DictReplacement(TextDict(values), ps[i].token)
    {
      ObjectAgreesWithDict(values, c, ps[i].token);
    }
    ReplaceSameOutput(ps, t => ObjectReplacement(values, c, t), t => DictReplacement(TextDict(values), t));
  }
}
