/** Vocabulary shared by both iterations of the flashcard service: identifiers,
    optional values, JSON request bodies, partial-update fields and the
    status-plus-payload responses the HTTP handlers send. */
module Common {

  /** Primary keys of users, collections and cards are UUID strings. */
  type Id = string

  datatype Option<+T> = None | Some(value: T)

  /** A JSON scalar as it can appear under a key of a request body. */
  datatype Json = JNull | JBool(b: bool) | JNumber(n: real) | JString(s: string)

  /** A JSON object: the body of a request, or a token payload. */
  type Body = map<string, Json>

  /** The value under `k`, or None when the key is missing. */
  function Lookup(b: Body, k: string): (r: Option<Json>)
    ensures r.Some? <==> k in b
    ensures r.Some? ==> r.value == b[k]
  {
    if k in b then Some(b[k]) else None
  }

  /** The string under `k`, or "" when there is none. */
  function TextOf(b: Body, k: string): string
  {
    if k in b && b[k].JString? then b[k].s else ""
  }

  /** The boolean under `k`, or false when there is none. */
  function FlagOf(b: Body, k: string): bool
  {
    k in b && b[k].JBool? && b[k].b
  }

  /** A key of a partial-update request: missing, explicitly `null`, or given a value. */
  datatype Field<+T> = Absent | Null | Given(value: T)

  /** Reads a key of a parsed body as an update field: missing, `null`, or a string. */
  function TextField(b: Body, k: string): Field<string>
  {
    if k !in b then Absent
    else if b[k] == JNull then Null
    else Given(TextOf(b, k))
  }

  /** `value || null` for an optional, nullable string: missing, `null` and
      the empty string are all stored as NULL. */
  function OrNull(fld: Field<string>): (r: Option<string>)
    ensures r.Some? <==> fld.Given? && fld.value != ""
    ensures r.Some? ==> r.value == fld.value
  {
    if fld.Given? && fld.value != "" then Some(fld.value) else None
  }

  /** A text column after a partial update: replaced only when the key was given. */
  function PatchText(before: string, fld: Field<string>): (r: string)
    ensures fld.Given? ==> r == fld.value
    ensures !fld.Given? ==> r == before
  {
    if fld.Given? then fld.value else before
  }

  /** A nullable column after a partial update: a missing key keeps it,
      `null` clears it, a value replaces it. */
  function PatchNullable(before: Option<string>, fld: Field<string>): (r: Option<string>)
    ensures fld.Absent? ==> r == before
    ensures fld.Null? ==> r.None?
    ensures fld.Given? ==> r == Some(fld.value)
  {
    match fld
    case Absent => before
    case Null => None
    case Given(v) => Some(v)
  }

  /** What a handler answers: a success status with its payload, or an
      error status with the error message of the JSON body. */
  datatype Response<+T> = Ok(status: int, value: T) | Err(status: int, message: string)

  /** The characters `String.prototype.trim` removes: white space and line terminators. */
  predicate IsWhitespace(c: char)
  {
    || c == ' ' || c == '\t' || c == '\n' || c == '\r'
    || c == '\U{0B}' || c == '\U{0C}' || c == '\U{A0}' || c == '\U{1680}'
    || ('\U{2000}' <= c <= '\U{200A}')
    || c == '\U{2028}' || c == '\U{2029}' || c == '\U{202F}' || c == '\U{205F}'
    || c == '\U{3000}' || c == '\U{FEFF}'
  }

  /** True when trimming `s` leaves the empty string. */
  predicate IsBlank(s: string)
  {
    forall i :: 0 <= i < |s| ==> IsWhitespace(s[i])
  }
}
