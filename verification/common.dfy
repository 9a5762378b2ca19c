/** Values shared by every part of the dashboard model: optional values, results,
    and the shape of a field read out of a JSON request body. */
module Common {

  /** Identifiers of stored rows (database-generated strings). */
  type Id = string

  datatype Option<+T> = None | Some(value: T) {
    function GetOr(default: T): T {
      match this
      case Some(v) => v
      case None => default
    }
  }

  datatype Result<+T, +E> = Success(value: T) | Failure(error: E)

  /** A string-valued property of a parsed JSON body: absent (`undefined`),
      explicitly `null`, or a string. Destructuring defaults apply only to
      `Undefined`, while every falsiness check treats `Undefined`, `Null` and
      the empty string alike. */
  datatype Field = Undefined | Null | Str(s: string) {

    /** JavaScript truthiness of the property. */
    predicate Truthy() {
      Str? && s != ""
    }

    /** `const { f = dflt } = body`: the default replaces only an absent property. */
    function WithDefault(dflt: string): (r: Field)
      ensures Undefined? ==> r == Str(dflt)
      ensures !Undefined? ==> r == this
    {
      if Undefined? then Str(dflt) else this
    }

    /** The value as stored in a nullable column (`undefined` and `null` both become null). */
    function Stored(): (r: Option<string>)
      ensures r.Some? <==> Str?
      ensures Str? ==> r.value == s
    {
      if Str? then Some(s) else None
    }
  }

  /** A numeric property of a parsed JSON body, in integer minor units: absent,
      `null`, a JSON number, or a string together with what `parseFloat` makes
      of it (None for `NaN`). */
  datatype Amount = AmountUndefined | AmountNull | AmountNumber(minor: int) | AmountText(text: string, parsed: Option<int>) {

    /** JavaScript truthiness: zero and the empty string are falsy. */
    predicate Truthy() {
      (AmountNumber? && minor != 0) || (AmountText? && text != "")
    }

    /** `parseFloat(x)`: a number is itself, a string is parsed, and `undefined`
        and `null` are `NaN` (None). */
    function ParseFloat(): (r: Option<int>)
      ensures AmountNumber? ==> r == Some(minor)
      ensures AmountText? ==> r == parsed
      ensures AmountUndefined? || AmountNull? ==> r.None?
    {
      match this
      case AmountNumber(m) => Some(m)
      case AmountText(_, p) => p
      case _ => None
    }
  }

  /** `xs.includes(f)` for a field against a list of string literals. */
  predicate IncludedIn(f: Field, xs: seq<string>) {
    f.Str? && f.s in xs
  }
}
