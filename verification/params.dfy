/** `parseIntParam` of server/handler.go: reads one form value and turns it
    into an int64, a default, and possibly an error. */
module Params {
  import opened Wrappers
  import opened StrConv

  /** Parsed form values (Go's `url.Values`): every key maps to the values it
      was given, in order. */
  type Form = map<string, seq<string>>

  /** `url.Values.Get`: the first value given for `key`, or "" when the key is
      absent or has no values. */
  function FormGet(form: Form, key: string): string {
    if key in form && |form[key]| > 0 then form[key][0] else ""
  }

  /** `errMissingParam`, or the `*strconv.NumError` that `ParseInt` returned. */
  datatype ParamError = MissingParam | Invalid(cause: NumError)

  /** The `(int64, error)` pair `parseIntParam` returns. */
  datatype Param = Param(value: int64, err: Option<ParamError>)

  /** The int64 the form gives for `key`, when its value is a valid base-10
      int64 literal; the reference the parsed parameters are judged against. */
  function IntField(form: Form, key: string): Option<int64> {
    var s := FormGet(form, key);
    if ValidLiteral(s) then Some(LiteralValue(s) as int64) else None
  }

  /** `parseIntParam(r, key, nullable, defaultValue)`. An empty value gives the
      default, with no error only when the parameter is nullable; a valid
      literal gives its value; anything else gives the default and the parse
      error. */
  function ParseIntParam(form: Form, key: string, nullable: bool, default: int64): (p: Param)
    ensures FormGet(form, key) == "" ==> p.value == default
    ensures FormGet(form, key) == "" ==> (p.err == None <==> nullable)
    ensures p.err == Some(MissingParam) <==> FormGet(form, key) == "" && !nullable
    ensures FormGet(form, key) != "" ==> (p.err == None <==> IntField(form, key).Some?)
    ensures IntField(form, key).Some? ==> p == Param(IntField(form, key).value, None)
    ensures p.err.Some? ==> p.value == default
    ensures p.err.Some? && p.err.value.Invalid? ==> FormGet(form, key) != "" && !ValidLiteral(FormGet(form, key))
    ensures FormGet(form, key) != "" && !ValidLiteral(FormGet(form, key)) ==>
              p.err == Some(Invalid(ParseInt(FormGet(form, key)).error))
  {
    var s := FormGet(form, key);
    if s == "" then
      if nullable then Param(default, None) else Param(default, Some(MissingParam))
    else
      match ParseInt(s)
      case Failure(e) => Param(default, Some(Invalid(e)))
      case Success(v) => Param(v, None)
  }

  /** The time range `r` of the read handlers and pages:
      `parseIntParam(r, "r", true, 1)`, replaced by `rangeDay` on error. So 1
      when absent and `rangeDay` when present but not a valid literal. */
  function TimeRange(rangeDay: int64, form: Form): (tr: int64)
    ensures FormGet(form, "r") == "" ==> tr == 1
    ensures IntField(form, "r").Some? ==> tr == IntField(form, "r").value
    ensures FormGet(form, "r") != "" && IntField(form, "r").None? ==> tr == rangeDay
  {
    var p := ParseIntParam(form, "r", true, 1);
    if p.err.Some? then rangeDay else p.value
  }

  /** A value that is present but empty counts as missing, and only the first
      value of a repeated key is read. */
  lemma EmptyFirstValueIsMissing(form: Form, key: string, rest: seq<string>, default: int64)
    requires key in form && form[key] == [""] + rest
    ensures ParseIntParam(form, key, false, default) == Param(default, Some(MissingParam))
    ensures ParseIntParam(form, key, true, default) == Param(default, None)
  {
    assert FormGet(form, key) == "";
  }
}
