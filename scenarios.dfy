/**
 * Worked examples: the fills applied to the templates and values the
 * repository's own tests use. Templates and results are written as
 * their pieces (literal text, then a token or what replaced it), and
 * each example follows from a shape lemma about templates of that form.
 */
module Scenarios {
  import opened Wrappers
  import opened Tokens
  import opened Dicts
  import opened Options
  import opened Models
  import opened Fills
  import opened Engine
  import opened TemplateMaps

  /** Literal text: nothing in it can start a token. */
  predicate Plain(p: string) {
    forall i :: 0 <= i < |p| ==> p[i] != '{'
  }

  /** What the generic token `tok` becomes when the counter stands at `i`. */
  function Slot(values: seq<Option<string>>, i: nat, tok: string): string {
    if i < |values| then OrEmpty(values[i]) else tok
  }

  /** A text value that is not formattable, such as a string. */
  function Text(s: string): Value {
    Value(Some(s), None)
  }

  // ----------------------------------------------------------------------
  // Shapes

  /** Literal text then one generic token: the token takes the value at the counter. */
  lemma ShapeOneGeneric(s: string, p: string, tok: string, values: seq<Option<string>>, i: nat)
    requires s == p + tok && Plain(p) && IsGenericToken(tok) && i <= |values|
    ensures Positional(GenericScan(s), values, i) == p + Slot(values, i, tok)
  {
    assert s == p + tok + [];
    PositionalSplit(p, tok, [], values, i);
    assert GenericScan([]) == [];
    assert Positional([], values, if i < |values| then i + 1 else i) == [];
    assert p + Slot(values, i, tok) + [] == p + Slot(values, i, tok);
  }

  /** Two runs of literal text and generic token: the tokens take the first two values, as far as they go. */
  lemma ShapeTwoGeneric(s: string, p: string, tok: string, p': string, tok': string, values: seq<Option<string>>)
    requires s == p + tok + p' + tok' && Plain(p) && Plain(p') && IsGenericToken(tok) && IsGenericToken(tok')
    ensures PositionalFill(Some(s), values)
      == Some(p + Slot(values, 0, tok) + p' + Slot(values, if 0 < |values| then 1 else 0, tok'))
  {
    var q := p' + tok';
    assert s == p + tok + q;
    PositionalSplit(p, tok, q, values, 0);
    ShapeOneGeneric(q, p', tok', values, if 0 < |values| then 1 else 0);
    var a, b := Slot(values, 0, tok), Slot(values, if 0 < |values| then 1 else 0, tok');
    assert p + a + (p' + b) == p + a + p' + b;
  }

  /** Literal text, one named token, literal text: only the token is replaced. */
  lemma ShapeOneNamed(s: string, p: string, t: NamedToken, q: string, f: NamedToken -> string)
    requires s == p + t.Text() + q && Plain(p) && Plain(q) && t.Valid()
    ensures ReplaceNamed(NamedScan(s), f) == p + f(t) + q
  {
    NamedFillSplit(p, t, q, f);
    NamedFillLiteral(q, f);
  }

  /** Two runs of literal text and named token: only the tokens are replaced. */
  lemma ShapeTwoNamed(s: string, p: string, t: NamedToken, p': string, t': NamedToken, f: NamedToken -> string)
    requires s == p + t.Text() + p' + t'.Text() && Plain(p) && Plain(p') && t.Valid() && t'.Valid()
    ensures ReplaceNamed(NamedScan(s), f) == p + f(t) + p' + f(t')
  {
    var q := p' + t'.Text();
    assert s == p + t.Text() + q;
    NamedFillSplit(p, t, q, f);
    ShapeOneNamed(q, p', t', [], f);
    assert p + f(t) + (p' + f(t') + []) == p + f(t) + p' + f(t');
  }

  /** Three runs of literal text and named token: only the tokens are replaced. */
  lemma ShapeThreeNamed(s: string, p: string, t: NamedToken, p': string, t': NamedToken, p'': string, t'': NamedToken,
                        f: NamedToken -> string)
    requires s == p + t.Text() + p' + t'.Text() + p'' + t''.Text()
    requires Plain(p) && Plain(p') && Plain(p'') && t.Valid() && t'.Valid() && t''.Valid()
    ensures ReplaceNamed(NamedScan(s), f) == p + f(t) + p' + f(t') + p'' + f(t'')
  {
    var q := p' + t'.Text() + p'' + t''.Text();
    assert s == p + t.Text() + q;
    NamedFillSplit(p, t, q, f);
    ShapeTwoNamed(q, p', t', p'', t'', f);
    assert p + f(t) + (p' + f(t') + p'' + f(t'')) == p + f(t) + p' + f(t') + p'' + f(t'');
  }

  /** The dictionary fill of literal text, one named token, literal text. */
  lemma DictShape(s: string, p: string, t: NamedToken, q: string, d: Dict<Option<string>>)
    requires s == p + t.Text() + q && Plain(p) && Plain(q) && t.Valid()
    ensures DictFill(Some(s), d) == Some(p + DictReplacement(d, t) + q)
  {
    ShapeOneNamed(s, p, t, q, u => DictReplacement(d, u));
  }

  /** The object fill of literal text, one named token, literal text. */
  lemma ObjectShape(s: string, p: string, t: NamedToken, q: string, values: Dict<Option<Value>>,
                    culture: Option<Culture>, options: SmartStringsOptions, current: Culture)
    requires s == p + t.Text() + q && Plain(p) && Plain(q) && t.Valid()
    ensures FillWithObjects(Some(s), values, culture, options, current)
      == Some(p + ObjectReplacement(values, ResolveCulture(culture, options, current), t) + q)
  {
    var c := ResolveCulture(culture, options, current);
    ShapeOneNamed(s, p, t, q, u => ObjectReplacement(values, c, u));
  }

  /** The projection of a single property holds it under its own name. */
  lemma SingleProjection(name: string, value: Option<Value>)
    ensures Projection([Property(name, value)]).TryGet(name) == Some(value)
  {
    ProjectionLookup([Property(name, value)], name);
    assert ValueEntries([Property(name, value)]) == [Entry(name, value)];
  }

  /** A single bound key reads what its resolver gave, whatever the model's properties. */
  lemma SingleBinding(model: Model, key: string, resolver: Model -> Option<Value>)
    ensures Merged(model, Some([Bind(key, resolver)])).TryGet(key) == Some(TextOf(resolver(model)))
  {
    var es := CallEntries(model, [Bind(key, resolver)]);
    var e := Entry(key, TextOf(resolver(model)));
    assert es == [e];
    assert Overlay(Empty<Option<string>>(Ordinal), es) == Dict(Ordinal, [e]) by {
      assert es[..0] == [];
    }
    ExtractedValid(model);
    OverlayTryGet(Extracted(model), [e], key);
    assert [e][..0] == [];
  }

  /**
   * The model fill of literal text, one named token, literal text, over a
   * model whose one property is named as the token: a value that is not
   * formattable gives its text, a formattable one with a colon part is
   * formatted with it.
   */
  lemma ModelShape(s: string, p: string, t: NamedToken, q: string, self: Value, v: Value,
                   culture: Option<Culture>, options: SmartStringsOptions, current: Culture)
    requires s == p + t.Text() + q && Plain(p) && Plain(q) && t.Valid()
    ensures v.format.None? ==>
      ModelFill(Some(s), Instance(false, self, [Property(t.name, Some(v))]), culture, options, current)
        == Some(p + OrEmpty(v.text) + q)
    ensures var c := ResolveCulture(culture, options, current);
      v.format.Some? && t.FormatOrFallback() != [] && v.format.value(t.FormatOrFallback(), c).Formatted? ==>
      ModelFill(Some(s), Instance(false, self, [Property(t.name, Some(v))]), culture, options, current)
        == Some(p + OrEmpty(v.format.value(t.FormatOrFallback(), c).text) + q)
  {
    SingleProjection(t.name, Some(v));
    ObjectShape(s, p, t, q, Projection([Property(t.name, Some(v))]), culture, options, current);
  }

  /**
   * The map fill of literal text, one named token, literal text, with one
   * binding of the token's name: the resolver's text, or the fallback when
   * that is null or empty.
   */
  lemma MapShape(s: string, p: string, t: NamedToken, q: string, model: Model, resolver: Model -> Option<Value>)
    requires s == p + t.Text() + q && Plain(p) && Plain(q) && t.Valid()
    ensures var r := TextOf(resolver(model));
      MapFill(Some(s), model, Some([Bind(t.name, resolver)]))
        == p + (if r.Some? && r.value != [] then r.value else t.FormatOrFallback()) + q
  {
    SingleBinding(model, t.name, resolver);
    DictShape(s, p, t, q, Merged(model, Some([Bind(t.name, resolver)])));
  }

  // ----------------------------------------------------------------------
  // Positional fill

  /** Values fill the numbered tokens in order. */
  lemma MultipleValuesInOrder(s: string)
    requires s == "Hi " + "{0}" + ", welcome to " + "{1}"
    ensures PositionalFill(Some(s), [Some("Alice"), Some("Wonderland")])
      == Some("Hi " + "Alice" + ", welcome to " + "Wonderland")
  {
    var vs := [Some("Alice"), Some("Wonderland")];
    ShapeTwoGeneric(s, "Hi ", "{0}", ", welcome to ", "{1}", vs);
    assert Slot(vs, 0, "{0}") == "Alice" && Slot(vs, 1, "{1}") == "Wonderland";
  }

  /** A token left without a value stays as written. */
  lemma FewerValuesKeepToken(s: string)
    requires s == "Hello " + "{0}" + ", welcome to " + "{1}"
    ensures PositionalFill(Some(s), [Some("Alice")]) == Some("Hello " + "Alice" + ", welcome to " + "{1}")
  {
    var vs := [Some("Alice")];
    ShapeTwoGeneric(s, "Hello ", "{0}", ", welcome to ", "{1}", vs);
    assert Slot(vs, 0, "{0}") == "Alice" && Slot(vs, 1, "{1}") == "{1}";
  }

  /** Values beyond the last token are ignored. */
  lemma ExtraValuesIgnored(s: string)
    requires s == "Hello " + "{0}"
    ensures PositionalFill(Some(s), [Some("Alice"), Some("Extra"), Some("More")]) == Some("Hello " + "Alice")
  {
    var vs := [Some("Alice"), Some("Extra"), Some("More")];
    ShapeOneGeneric(s, "Hello ", "{0}", vs, 0);
    assert Slot(vs, 0, "{0}") == "Alice";
  }

  // ----------------------------------------------------------------------
  // Dictionary fill

  /** In a dictionary of two entries whose keys differ, each key reads its own value. */
  lemma TwoEntries<V>(cmp: Comparer, k: string, v: V, k': string, v': V)
    requires !SameKey(cmp, k, k')
    ensures Dict(cmp, [Entry(k, v), Entry(k', v')]).TryGet(k) == Some(v)
    ensures Dict(cmp, [Entry(k, v), Entry(k', v')]).TryGet(k') == Some(v')
  {
    FindIs(cmp, [Entry(k, v), Entry(k', v')], k, 0);
    FindIs(cmp, [Entry(k, v), Entry(k', v')], k', 1);
  }

  /** Named tokens read an ordinal dictionary, whatever texts it holds. */
  lemma DictionaryFillsNames(s: string, user: string, plan: string)
    requires s == "Hello " + "{user}" + ", your plan is " + "{plan}"
    ensures DictFill(Some(s), Dict(Ordinal, [Entry("user", Some(user)), Entry("plan", Some(plan))]))
      == Some("Hello " + user + ", your plan is " + plan)
  {
    var d := Dict(Ordinal, [Entry("user", Some(user)), Entry("plan", Some(plan))]);
    var t, t' := NamedToken("user", None), NamedToken("plan", None);
    ShapeTwoNamed(s, "Hello ", t, ", your plan is ", t', u => DictReplacement(d, u));
    assert "user"[0] != "plan"[0];
    TwoEntries(Ordinal, "user", Some(user), "plan", Some(plan));
  }

  /** A null value in the dictionary gives the token's fallback. */
  lemma NullValueUsesFallback(s: string)
    requires s == "Hi " + "{name:Guest}"
    ensures DictFill(Some(s), Dict(Ordinal, [Entry("name", None)])) == Some("Hi " + "Guest")
  {
    var d: Dict<Option<string>> := Dict(Ordinal, [Entry("name", None)]);
    DictShape(s, "Hi ", NamedToken("name", Some("Guest")), [], d);
    assert d.TryGet("name") == Some(None);
    assert "Hi " + "Guest" + [] == "Hi " + "Guest";
  }

  /** A missing key gives the token's fallback. */
  lemma MissingKeyUsesFallback(s: string)
    requires s == "Hi " + "{name:User}" + ", welcome!"
    ensures DictFill(Some(s), Empty(Ordinal)) == Some("Hi " + "User" + ", welcome!")
  {
    DictShape(s, "Hi ", NamedToken("name", Some("User")), ", welcome!", Empty(Ordinal));
  }

  // ----------------------------------------------------------------------
  // Model fill

  /** A null model turns each token into its fallback. */
  lemma NullObjectUsesFallbacks(s: string, culture: Option<Culture>, options: SmartStringsOptions, current: Culture)
    requires s == "Hello " + "{name:Guest}" + ", welcome!"
    ensures ModelFill(Some(s), NullModel, culture, options, current) == Some("Hello " + "Guest" + ", welcome!")
  {
    ObjectShape(s, "Hello ", NamedToken("name", Some("Guest")), ", welcome!", Empty(Ordinal), culture, options, current);
  }

  /** An inserted value is not scanned again, whatever braces it holds. */
  lemma BracesInValueKept(s: string, self: Value, message: string,
                          culture: Option<Culture>, options: SmartStringsOptions, current: Culture)
    requires s == "Log: " + "{message}"
    ensures ModelFill(Some(s), Instance(false, self, [Property("message", Some(Text(message)))]), culture, options, current)
      == Some("Log: " + message)
  {
    ModelShape(s, "Log: ", NamedToken("message", None), [], self, Text(message), culture, options, current);
    assert "Log: " + message + [] == "Log: " + message;
  }

  /** The colon part of a token is not a format for a value that is not formattable. */
  lemma StringIgnoresSpec(s: string, self: Value, name: string,
                          culture: Option<Culture>, options: SmartStringsOptions, current: Culture)
    requires s == "Hello " + "{name:Guest}"
    ensures ModelFill(Some(s), Instance(false, self, [Property("name", Some(Text(name)))]), culture, options, current)
      == Some("Hello " + name)
  {
    ModelShape(s, "Hello ", NamedToken("name", Some("Guest")), [], self, Text(name), culture, options, current);
    assert "Hello " + name + [] == "Hello " + name;
  }

  /** A formattable value is formatted with the colon part, in the resolved culture. */
  lemma SpecFormatsValue(s: string, self: Value, date: Value, formatted: string,
                         culture: Option<Culture>, options: SmartStringsOptions, current: Culture)
    requires s == "Date: " + "{date:yyyy-MM-dd}"
    requires date.format.Some?
    requires date.format.value("yyyy-MM-dd", ResolveCulture(culture, options, current)) == Formatted(Some(formatted))
    ensures ModelFill(Some(s), Instance(false, self, [Property("date", Some(date))]), culture, options, current)
      == Some("Date: " + formatted)
  {
    ModelShape(s, "Date: ", NamedToken("date", Some("yyyy-MM-dd")), [], self, date, culture, options, current);
    assert "Date: " + formatted + [] == "Date: " + formatted;
  }

  // ----------------------------------------------------------------------
  // Map fill

  /**
   * The merge for two bindings beside a `Company` property: the bound keys
   * read their resolvers' texts, and `COMPANY`, which no call binds, reads
   * the property whose name matches it ignoring case.
   */
  lemma MergeBesideProperty(model: Model, company: string, user: Option<Value>,
                            fullName: Model -> Option<Value>, id: Model -> Option<Value>)
    requires model.Instance? && model.properties == [Property("Company", Some(Text(company))), Property("User", user)]
    ensures var merged := Merged(model, Some([Bind("USERNAME", fullName), Bind("ID", id)]));
      && merged.TryGet("USERNAME") == Some(TextOf(fullName(model)))
      && merged.TryGet("COMPANY") == Some(Some(company))
      && merged.TryGet("ID") == Some(TextOf(id(model)))
  {
    var action := Some([Bind("USERNAME", fullName), Bind("ID", id)]);
    var e, e' := Entry("USERNAME", TextOf(fullName(model))), Entry("ID", TextOf(id(model)));
    assert CallEntries(model, action.value) == [e, e'];
    assert Bindings(model, action) == Dict(Ordinal, [e, e']) by {
      assert [e, e'][..1] == [e] && [e][..0] == [];
      assert Overlay(Empty<Option<string>>(Ordinal), [e]) == Dict(Ordinal, [e]);
    }
    var cs := TextEntries(model.properties);
    assert cs == [Entry("Company", Some(company)), Entry("User", TextOf(user))];
    assert Normalize(OrdinalIgnoreCase, "Company") == Normalize(OrdinalIgnoreCase, "COMPANY");
    assert LastBinding(OrdinalIgnoreCase, cs, "COMPANY") == Some(Some(company)) by {
      assert cs[..1] == [Entry("Company", Some(company))];
    }
    assert LastBinding(OrdinalIgnoreCase, [e, e'], "COMPANY").None? by {
      assert !SameKey(OrdinalIgnoreCase, "ID", "COMPANY") && !SameKey(OrdinalIgnoreCase, "USERNAME", "COMPANY");
      assert [e, e'][..1] == [e] && [e][..0] == [];
      assert LastBinding(OrdinalIgnoreCase, [e, e'], "COMPANY") == LastBinding(OrdinalIgnoreCase, [e], "COMPANY");
      assert LastBinding(OrdinalIgnoreCase, [e], "COMPANY") == LastBinding(OrdinalIgnoreCase, [], "COMPANY");
    }
    MergedLookup(model, action, "USERNAME");
    MergedLookup(model, action, "COMPANY");
    MergedLookup(model, action, "ID");
    assert [e, e'][..1] == [e];
  }

  /** The dictionary fill of `{USERNAME}-{COMPANY}-{ID}`: each token gets its own replacement. */
  lemma ThreeNamesShape(s: string, d: Dict<Option<string>>)
    requires s == "{USERNAME}" + "-" + "{COMPANY}" + "-" + "{ID}"
    ensures DictFill(Some(s), d) == Some(DictReplacement(d, NamedToken("USERNAME", None)) + "-"
      + DictReplacement(d, NamedToken("COMPANY", None)) + "-" + DictReplacement(d, NamedToken("ID", None)))
  {
    var t, t', t'' := NamedToken("USERNAME", None), NamedToken("COMPANY", None), NamedToken("ID", None);
    assert t.Text() == "{USERNAME}" && t'.Text() == "{COMPANY}" && t''.Text() == "{ID}";
    assert s == [] + t.Text() + "-" + t'.Text() + "-" + t''.Text();
    ShapeThreeNamed(s, [], t, "-", t', "-", t'', u => DictReplacement(d, u));
    assert [] + DictReplacement(d, t) == DictReplacement(d, t);
  }

  /**
   * Two bindings beside a `Company` property: `{USERNAME}` and `{ID}` read
   * their resolvers, and `{COMPANY}` reads the property.
   */
  lemma BindingsBesideProperty(s: string, self: Value, company: string, user: Option<Value>,
                               fullName: Model -> Option<Value>, id: Model -> Option<Value>, name: string, idText: string)
    requires s == "{USERNAME}" + "-" + "{COMPANY}" + "-" + "{ID}"
    requires name != [] && company != [] && idText != []
    requires var model := Instance(false, self, [Property("Company", Some(Text(company))), Property("User", user)]);
      TextOf(fullName(model)) == Some(name) && TextOf(id(model)) == Some(idText)
    ensures MapFill(Some(s), Instance(false, self, [Property("Company", Some(Text(company))), Property("User", user)]),
                    Some([Bind("USERNAME", fullName), Bind("ID", id)]))
      == name + "-" + company + "-" + idText
  {
    var model := Instance(false, self, [Property("Company", Some(Text(company))), Property("User", user)]);
    var merged := Merged(model, Some([Bind("USERNAME", fullName), Bind("ID", id)]));
    MergeBesideProperty(model, company, user, fullName, id);
    ThreeNamesShape(s, merged);
  }

  /** A binding overrides whatever the model's properties hold, a property named `Company` included. */
  lemma BindingOverridesProperty(s: string, model: Model, resolver: Model -> Option<Value>, company: string)
    requires s == "Company: " + "{COMPANY}"
    requires resolver(model) == Some(Text(company))
    ensures MapFill(Some(s), model, Some([Bind("COMPANY", resolver)])) == "Company: " + company
  {
    MapShape(s, "Company: ", NamedToken("COMPANY", None), [], model, resolver);
    assert "Company: " + company + [] == "Company: " + company;
  }

  /** A binding whose resolver gives null falls back to the token's colon part, whatever the model. */
  lemma NullBindingUsesFallback(s: string, model: Model, resolver: Model -> Option<Value>)
    requires s == "Welcome, " + "{USERNAME:Guest}"
    requires resolver(model).None?
    ensures MapFill(Some(s), model, Some([Bind("USERNAME", resolver)])) == "Welcome, " + "Guest"
  {
    MapShape(s, "Welcome, ", NamedToken("USERNAME", Some("Guest")), [], model, resolver);
    assert "Welcome, " + "Guest" + [] == "Welcome, " + "Guest";
  }

  /** A scalar model has no properties to extract; a binding computed from it fills the token. */
  lemma BindingOnScalarModel(s: string, self: Value, resolver: Model -> Option<Value>, n: string)
    requires s == "Value: " + "{VAL}"
    requires resolver(Instance(true, self, [])) == Some(Text(n))
    ensures MapFill(Some(s), Instance(true, self, []), Some([Bind("VAL", resolver)])) == "Value: " + n
  {
    MapShape(s, "Value: ", NamedToken("VAL", None), [], Instance(true, self, []), resolver);
    assert "Value: " + n + [] == "Value: " + n;
  }
}
