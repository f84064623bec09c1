/**
 * The override map handed to the caller's binder, and the map fill that
 * merges it over a model's extracted properties.
 */
module TemplateMaps {
  import opened Wrappers
  import opened Tokens
  import opened Dicts
  import opened Models
  import opened Fills

  /** Keys compared ordinally are the same key exactly when they are equal. */
  lemma OrdinalSameKey(a: string, b: string)
    ensures SameKey(Ordinal, a, b) <==> a == b
  {
  }

  /** The indexer getter over a binding dictionary: the stored value, or null for an unbound key. */
  function Lookup(values: Dict<Option<string>>, key: string): Option<string> {
    match values.TryGet(key)
    case Some(v) => v
    case None => None
  }

  /**
   * The binder: the model it was created for and the bindings made so far,
   * keyed ordinally and kept in the order the keys were first bound.
   */
  class TemplateMap {
    const source: Model
    var values: Dict<Option<string>>

    predicate Valid()
      reads this
    {
      values.comparer == Ordinal && values.Valid()
    }

    constructor(source: Model)
      ensures this.source == source && values == Empty(Ordinal) && Valid()
    {
      this.source := source;
      values := Empty(Ordinal);
    }

    /** The indexer getter. */
    function Get(key: string): Option<string>
      reads this
    {
      Lookup(values, key)
    }

    /**
     * `Bind(key, resolver)` stores the text of what the resolver returns for
     * the source; it overwrites an earlier binding of the same key and leaves
     * every other key as it was.
     */
    method Bind(key: string, resolver: Model -> Option<Value>)
      requires Valid()
      modifies this
      ensures Valid() && values == old(values).Put(key, TextOf(resolver(source)))
      ensures Get(key) == TextOf(resolver(source))
      ensures forall k :: k != key ==> Get(k) == old(Get(k))
    {
      Store(key, TextOf(resolver(source)));
    }

    /** The indexer setter: stores exactly the given value under `key`, nothing else changes. */
    method Set(key: string, value: Option<string>)
      requires Valid()
      modifies this
      ensures Valid() && values == old(values).Put(key, value)
      ensures Get(key) == value
      ensures forall k :: k != key ==> Get(k) == old(Get(k))
    {
      Store(key, value);
    }

    method Store(key: string, value: Option<string>)
      requires Valid()
      modifies this
      ensures Valid() && values == old(values).Put(key, value)
      ensures Get(key) == value
      ensures forall k :: k != key ==> Get(k) == old(Get(k))
    {
      forall k
        ensures values.Put(key, value).TryGet(k) == if key == k then Some(value) else values.TryGet(k)
      {
        PutTryGet(values, key, value, k);
      }
      PutTryGet(values, key, value, key);
      values := values.Put(key, value);
    }

    /** The bindings, in the order their keys were first bound. */
    function GetValues(): seq<Entry<Option<string>>>
      reads this
    {
      values.entries
    }
  }

  /** One call the caller's binder action makes on the binder. */
  datatype BindCall =
    | Bind(key: string, resolver: Model -> Option<Value>)
    | Assign(key: string, value: Option<string>)

  /** The assignment a call makes, given the map's source. */
  function CallEntry(source: Model, call: BindCall): Entry<Option<string>> {
    match call
    case Bind(key, resolver) => Entry(key, TextOf(resolver(source)))
    case Assign(key, value) => Entry(key, value)
  }

  function CallEntries(source: Model, calls: seq<BindCall>): seq<Entry<Option<string>>> {
    seq(|calls|, i requires 0 <= i < |calls| => CallEntry(source, calls[i]))
  }

  /** The bindings after the action runs on a fresh map; a null action makes none. */
  function Bindings(source: Model, action: Option<seq<BindCall>>): Dict<Option<string>> {
    match action
    case None => Empty(Ordinal)
    case Some(calls) => Overlay(Empty(Ordinal), CallEntries(source, calls))
  }

  /** Runs the binder action's calls, in order, on the binder. */
  method Replay(binder: TemplateMap, calls: seq<BindCall>)
    requires binder.Valid()
    modifies binder
    ensures binder.Valid() && binder.values == Overlay(old(binder.values), CallEntries(binder.source, calls))
  {
    var k := 0;
    ghost var start := binder.values;
    while k < |calls|
      invariant k <= |calls| && binder.Valid()
      invariant binder.values == Overlay(start, CallEntries(binder.source, calls)[..k])
    {
      OverlayStep(start, CallEntries(binder.source, calls), k);
      match calls[k] {
        case Bind(key, resolver) => binder.Bind(key, resolver);
        case Assign(key, value) => binder.Set(key, value);
      }
      k := k + 1;
    }
    assert CallEntries(binder.source, calls)[..k] == CallEntries(binder.source, calls);
  }

  /** The extracted properties of a model: their texts by name, ignoring case; none for a null model. */
  function Extracted(model: Model): Dict<Option<string>> {
    match model
    case NullModel => Empty(OrdinalIgnoreCase)
    case Instance(_, _, properties) => Overlay(Empty(OrdinalIgnoreCase), TextEntries(properties))
  }

  /** The property extraction loop. */
  method ExtractValues(model: Model) returns (d: Dict<Option<string>>)
    ensures d == Extracted(model)
    ensures d.Valid() && d.comparer == OrdinalIgnoreCase
  {
    d := Empty(OrdinalIgnoreCase);
    if model.NullModel? {
      return;
    }
    var properties := model.properties;
    var k := 0;
    while k < |properties|
      invariant k <= |properties|
      invariant d == Overlay(Empty(OrdinalIgnoreCase), TextEntries(properties)[..k])
      invariant d.Valid() && d.comparer == OrdinalIgnoreCase
    {
      OverlayStep(Empty(OrdinalIgnoreCase), TextEntries(properties), k);
      PutTryGet(d, properties[k].name, TextOf(properties[k].value), "");
      d := d.Put(properties[k].name, TextOf(properties[k].value));
      k := k + 1;
    }
    assert TextEntries(properties)[..k] == TextEntries(properties);
  }

  /** The merged dictionary: the bindings assigned, in order, over the extracted properties. */
  function Merged(model: Model, action: Option<seq<BindCall>>): Dict<Option<string>> {
    Overlay(Extracted(model), Bindings(model, action).entries)
  }

  /** The map fill: the empty string for a null or empty template, else a dictionary fill over the merge. */
  function MapFill(template: Option<string>, model: Model, action: Option<seq<BindCall>>): string {
    if NullOrEmpty(template) then [] else OrEmpty(DictFill(template, Merged(model, action)))
  }

  /** The map fill with its extraction, binder and merge loops. */
  method FillWithMap(template: Option<string>, model: Model, action: Option<seq<BindCall>>) returns (r: string)
    ensures r == MapFill(template, model, action)
  {
    if NullOrEmpty(template) {
      return [];
    }
    var merged := ExtractValues(model);
    var binder := new TemplateMap(model);
    if action.Some? {
      Replay(binder, action.value);
    }
    assert binder.values == Bindings(model, action) by {
      if action.None? {
        assert binder.values == Empty(Ordinal);
      }
    }
    ghost var base := merged;
    var bound := binder.GetValues();
    var k := 0;
    while k < |bound|
      invariant k <= |bound|
      invariant merged == Overlay(base, bound[..k])
      invariant merged.Valid()
    {
      OverlayStep(base, bound, k);
      PutTryGet(merged, bound[k].key, bound[k].value, "");
      merged := merged.Put(bound[k].key, bound[k].value);
      k := k + 1;
    }
    assert bound[..k] == bound;
    r := OrEmpty(DictFill(template, merged));
  }

  /**
   * Override precedence: a binding overrides every extracted property whose
   * name matches its key ignoring case, and when several bound keys match
   * (differing only in case) the one enumerated last wins. A name that no
   * binding matches reads the extracted properties: the last property whose
   * name matches it ignoring case, and nothing for a null model.
   */
  lemma MergedLookup(model: Model, action: Option<seq<BindCall>>, key: string)
    ensures Merged(model, action).TryGet(key) == match LastBinding(OrdinalIgnoreCase, Bindings(model, action).entries, key)
      case Some(v) => Some(v)
      case None => Extracted(model).TryGet(key)
    ensures model.Instance? ==>
      Extracted(model).TryGet(key) == LastBinding(OrdinalIgnoreCase, TextEntries(model.properties), key)
    ensures model.NullModel? ==> Extracted(model).TryGet(key).None?
  {
    ExtractedValid(model);
    OverlayTryGet(Extracted(model), Bindings(model, action).entries, key);
    if model.Instance? {
      OverlayTryGet(Empty(OrdinalIgnoreCase), TextEntries(model.properties), key);
    }
  }

  lemma ExtractedValid(model: Model)
    ensures Extracted(model).Valid() && Extracted(model).comparer == OrdinalIgnoreCase
  {
    if model.Instance? {
      OverlayTryGet(Empty(OrdinalIgnoreCase), TextEntries(model.properties), "");
    }
  }

  /**
   * A later `Bind` or indexer set of the same key overwrites an earlier one:
   * the bindings read, for each key, the last call that assigned it.
   */
  lemma BindingsLookup(source: Model, calls: seq<BindCall>, key: string)
    ensures Bindings(source, Some(calls)).TryGet(key) == LastBinding(Ordinal, CallEntries(source, calls), key)
    ensures Bindings(source, Some(calls)).Valid()
  {
    OverlayTryGet(Empty(Ordinal), CallEntries(source, calls), key);
  }
}
