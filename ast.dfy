/** The value tree the grammar builds. Go writes each union as a struct of optional
    pointers of which the grammar fills exactly one; the model keeps that shape (an
    Option per alternative, and a Null that is set when its captured text is not empty)
    so that values with none or several alternatives set can be serialised too. */
module Ast {
  import opened Wrappers
  import opened Numbers
  import opened Chars
  import opened FloatFormat

  datatype JValue = JValue(
    Literal: Option<JLiteral>,
    Object: Option<JObject>,
    Array: Option<JArray>,
    Date: Option<JDate>)

  /** Null holds the captured spelling ("null" or "undefined"), "" when not set. */
  datatype JLiteral = JLiteral(
    Null: string,
    Boolean: Option<bool>,
    String: Option<string>,
    Decimal: Option<Float64>,
    Integer: Option<int64>)

  datatype JObject = JObject(Fields: seq<JField>)

  datatype JField = JField(Key: string, Value: JValue)

  datatype JArray = JArray(Values: seq<JValue>)

  /** new Date(Year, Month, Day, MoreValues...) */
  datatype JDate = JDate(Year: uint16, Month: uint8, Day: uint8, MoreValues: seq<uint64>)

  function LiteralValue(l: JLiteral): JValue {
    JValue(Some(l), None, None, None)
  }

  function DateValue(d: JDate): JValue {
    JValue(None, None, None, Some(d))
  }

  function Count(b: bool): nat {
    if b then 1 else 0
  }

  /** A literal as the grammar builds it: exactly one alternative set, a Null spelled as the
      lexer's Null rule reads it, a Decimal with digits on both sides of the point. */
  predicate WellFormedLiteral(l: JLiteral) {
    Count(l.Null != "") + Count(l.Boolean.Some?) + Count(l.String.Some?) +
    Count(l.Decimal.Some?) + Count(l.Integer.Some?) == 1 &&
    (l.Null != "" ==> l.Null == "null" || l.Null == "undefined") &&
    (l.Decimal.Some? ==>
      l.Decimal.value.whole != [] && l.Decimal.value.frac != [])
  }

  /** A value as the grammar builds it: exactly one alternative set, all the way down, and
      every object key an identifier. */
  predicate WellFormed(v: JValue)
    decreases v
  {
    Count(v.Literal.Some?) + Count(v.Object.Some?) + Count(v.Array.Some?) + Count(v.Date.Some?) == 1 &&
    (v.Literal.Some? ==> WellFormedLiteral(v.Literal.value)) &&
    (v.Object.Some? ==> WellFormedFields(v.Object.value.Fields)) &&
    (v.Array.Some? ==> WellFormedValues(v.Array.value.Values))
  }

  predicate WellFormedFields(fs: seq<JField>)
    decreases fs
  {
    fs == [] || (IsIdent(fs[0].Key) && WellFormed(fs[0].Value) && WellFormedFields(fs[1..]))
  }

  predicate WellFormedValues(vs: seq<JValue>)
    decreases vs
  {
    vs == [] || (WellFormed(vs[0]) && WellFormedValues(vs[1..]))
  }
}
