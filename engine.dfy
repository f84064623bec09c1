/**
 * The extension class: its global options and the model fill, which
 * dispatches on the model to the single-value fill or the object fill.
 */
module Engine {
  import opened Wrappers
  import opened Tokens
  import opened Dicts
  import opened Options
  import opened Models
  import opened Fills

  /** A scalar model's text can be handed to the single-value fill. */
  predicate ScalarFits(model: Model) {
    model.Instance? && model.scalar ==> DollarFree(OrEmpty(model.self.text))
  }

  /** The projection of an object model: its properties by name, ignoring case, the last write winning. */
  function Projection(properties: seq<Property>): Dict<Option<Value>> {
    Overlay(Empty(OrdinalIgnoreCase), ValueEntries(properties))
  }

  /**
   * The model fill: a null or empty template is returned; a null model is
   * an object fill over nothing; a scalar model fills the first generic
   * token with its text; any other model is an object fill over its
   * projected properties.
   */
  function ModelFill(template: Option<string>, model: Model, culture: Option<Culture>,
                     options: SmartStringsOptions, current: Culture): Option<string>
    requires ScalarFits(model)
  {
    if NullOrEmpty(template) then template
    else
      match model
      case NullModel => FillWithObjects(template, Empty(Ordinal), culture, options, current)
      case Instance(scalar, self, properties) =>
        if scalar then FillOne(template, Some(OrEmpty(self.text)))
        else FillWithObjects(template, Projection(properties), culture, options, current)
  }

  /**
   * The projection loop: each property is stored under its name in a
   * dictionary that ignores case.
   */
  method ProjectProperties(properties: seq<Property>) returns (d: Dict<Option<Value>>)
    ensures d == Projection(properties)
    ensures d.Valid() && d.comparer == OrdinalIgnoreCase
  {
    d := Empty(OrdinalIgnoreCase);
    var k := 0;
    while k < |properties|
      invariant k <= |properties|
      invariant d == Overlay(Empty(OrdinalIgnoreCase), ValueEntries(properties)[..k])
      invariant d.Valid() && d.comparer == OrdinalIgnoreCase
    {
      var es := ValueEntries(properties);
      OverlayStep(Empty(OrdinalIgnoreCase), es, k);
      PutTryGet(d, properties[k].name, properties[k].value, "");
      d := d.Put(properties[k].name, properties[k].value);
      k := k + 1;
    }
    assert ValueEntries(properties)[..k] == ValueEntries(properties);
  }

  /**
   * A projected property is found under any spelling of its name that
   * differs only in letter case; of several properties whose names match,
   * the last one counts.
   */
  lemma ProjectionLookup(properties: seq<Property>, key: string)
    ensures Projection(properties).TryGet(key) == LastBinding(OrdinalIgnoreCase, ValueEntries(properties), key)
  {
    OverlayTryGet(Empty(OrdinalIgnoreCase), ValueEntries(properties), key);
  }

  /** A null model turns every named token into its fallback text, or empty. */
  lemma NullModelGivesFallbacks(s: string, culture: Option<Culture>, options: SmartStringsOptions, current: Culture)
    requires s != []
    ensures ModelFill(Some(s), NullModel, culture, options, current)
      == Some(ReplaceNamed(NamedScan(s), (t: NamedToken) => t.FormatOrFallback()))
  {
    ObjectFillEmptyGivesFallbacks(s, Ordinal, culture, options, current);
  }

  /** A scalar model is a positional fill with its text as the one value. */
  lemma ScalarModelFillsFirstToken(template: Option<string>, self: Value, properties: seq<Property>,
                                   culture: Option<Culture>, options: SmartStringsOptions, current: Culture)
    requires DollarFree(OrEmpty(self.text))
    ensures ModelFill(template, Instance(true, self, properties), culture, options, current)
      == PositionalFill(template, [Some(OrEmpty(self.text))])
  {
    FillOneIsFirstPositional(template, Some(OrEmpty(self.text)));
  }

  /** The static extension class, reduced to its one piece of state. */
  class SmartStringExtensions {
    /** The global options every object fill resolves its culture against. */
    var globalOptions: SmartStringsOptions

    /** The class starts with a fresh options record. */
    constructor()
      ensures globalOptions == DefaultOptions
    {
      globalOptions := DefaultOptions;
    }

    /** Replaces the global options; a null record resets them to the defaults. */
    method ConfigureDefaults(options: Option<SmartStringsOptions>)
      modifies this
      ensures globalOptions == options.GetOr(DefaultOptions)
    {
      globalOptions := if options.Some? then options.value else DefaultOptions;
    }

    /** The model fill, reading the global options. */
    method FillModel(template: Option<string>, model: Model, culture: Option<Culture>, current: Culture)
      returns (r: Option<string>)
      requires ScalarFits(model)
      ensures r == ModelFill(template, model, culture, globalOptions, current)
    {
      if NullOrEmpty(template) {
        return template;
      }
      match model {
        case NullModel =>
          r := FillWithObjects(template, Empty(Ordinal), culture, globalOptions, current);
        case Instance(scalar, self, properties) =>
          if scalar {
            r := FillOne(template, Some(OrEmpty(self.text)));
          } else {
            var d := ProjectProperties(properties);
            r := FillWithObjects(template, d, culture, globalOptions, current);
          }
      }
    }
  }
}
