/**
 * The values a template is filled from. Reflection is not modelled: an
 * object model arrives as the list of its public instance properties, in
 * the order reflection returns them, each with the value its getter returned.
 */
module Models {
  import opened Wrappers
  import opened Dicts
  import opened Options

  /** The outcome of `IFormattable.ToString(format, culture)`: a result (possibly null) or a thrown exception. */
  datatype FormatResult = Formatted(text: Option<string>) | FormatFailed

  /**
   * A non-null object: what its `ToString()` returns (possibly null) and,
   * when it implements `IFormattable`, its formatting function.
   */
  datatype Value = Value(text: Option<string>, format: Option<(string, Culture) -> FormatResult>)

  /** `v?.ToString()`. */
  function TextOf(v: Option<Value>): Option<string> {
    match v
    case Some(x) => x.text
    case None => None
  }

  datatype Property = Property(name: string, value: Option<Value>)

  /**
   * A model passed to a fill: null, or an object with its properties.
   * `scalar` holds when the static type is primitive, `string` or `decimal`.
   */
  datatype Model = NullModel | Instance(scalar: bool, self: Value, properties: seq<Property>)

  /** The properties as dictionary entries holding the values themselves. */
  function ValueEntries(ps: seq<Property>): seq<Entry<Option<Value>>> {
    seq(|ps|, i requires 0 <= i < |ps| => Entry(ps[i].name, ps[i].value))
  }

  /** The properties as dictionary entries holding the values' texts. */
  function TextEntries(ps: seq<Property>): seq<Entry<Option<string>>> {
    seq(|ps|, i requires 0 <= i < |ps| => Entry(ps[i].name, TextOf(ps[i].value)))
  }
}
