/** The part of zod's object parsing the two form schemas rely on. A field
    whose value has the wrong type (`undefined` included) aborts: the object
    fails and no object-level refinement runs. A field of the right type
    that fails a check (`min`, `email`, a field-level `refine`) only makes
    the result dirty: its issue is recorded and parsing goes on. */
module ZodFields {
  import opened Wrappers

  /** A form value as the schema receives it. */
  datatype Value = Undefined | Str(s: string) | Bool(b: bool) | OtherValue

  /** An issue: the field it is reported on and its message; `None` is
      zod's own default message. */
  datatype Issue = Issue(path: string, message: Option<string>)

  /** One parsed field: its value when the type was right (even when a
      check failed), and the issues it raised. */
  datatype Field<T> = Field(value: Option<T>, issues: seq<Issue>)

  /** The type error of a field: `required_error` when the value is
      missing, zod's default message otherwise. */
  function TypeIssue(path: string, v: Value, required: Option<string>): (i: Issue)
    ensures i.path == path
    ensures v.Undefined? ==> i.message == required
    ensures !v.Undefined? ==> i.message == None
  {
    Issue(path, if v.Undefined? then required else None)
  }

  /** `z.string({ required_error }).<check>(message)`. */
  function StringField(path: string, v: Value, required: string, ok: string -> bool, message: string): (r: Field<string>)
    ensures r.value.Some? <==> v.Str?
    ensures v.Str? ==> r.value == Some(v.s) && (r.issues == [] <==> ok(v.s))
    ensures v.Str? && !ok(v.s) ==> r.issues == [Issue(path, Some(message))]
    ensures !v.Str? ==> r.issues == [TypeIssue(path, v, Some(required))]
  {
    match v
    case Str(s) => Field(Some(s), if ok(s) then [] else [Issue(path, Some(message))])
    case _ => Field(None, [TypeIssue(path, v, Some(required))])
  }
}
