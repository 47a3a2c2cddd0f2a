/** The part of the `zod` validation library both iterations use: string,
    boolean and number schemas with length or range bounds, literals,
    `.optional()`, `.nullable()`, `.or(...)`, `.default(...)` and
    `z.object({...})`, which keeps only the keys of its shape. The email, URL
    and UUID format checks are not reimplemented: they are parameters. */
module Zod {
  import opened Common

  datatype Format = Plain | Email | Url | Uuid

  /** The library's format predicates, taken as given. */
  datatype Formats = Formats(isEmail: string -> bool, isUrl: string -> bool, isUuid: string -> bool)

  predicate HasFormat(f: Formats, fmt: Format, s: string)
  {
    match fmt
    case Plain => true
    case Email => f.isEmail(s)
    case Url => f.isUrl(s)
    case Uuid => f.isUuid(s)
  }

  /** A schema for one value. `Str(lo, Some(hi), fmt)` is
      `z.string().min(lo).max(hi)` with a format check; `Number(lo, hi)` is
      `z.number().min(lo).max(hi)`. */
  datatype Schema =
    | Str(min: nat, max: Option<nat>, format: Format)
    | Boolean
    | Number(lo: real, hi: real)
    | Literal(text: string)
    | Optional(inner: Schema)
    | Nullable(inner: Schema)
    | Or(left: Schema, right: Schema)
    | Default(inner: Schema, fallback: Json)

  predicate LengthOk(s: string, lo: nat, hi: Option<nat>)
  {
    lo <= |s| && (hi.None? || |s| <= hi.value)
  }

  /** Parses a value that may be missing (`None`, JavaScript's `undefined`).
      `None` is a validation failure; `Some(None)` is a success whose output is
      `undefined`; `Some(Some(j))` is a success producing `j`. */
  function Parse(sc: Schema, v: Option<Json>, f: Formats): (r: Option<Option<Json>>)
    // None of the combinators transforms a value that is present.
    ensures r.Some? && v.Some? ==> r.value == v
    // Only `.optional()` turns a missing value into success without a value.
    ensures r.Some? && r.value.None? ==> v.None?
    decreases sc
  {
    match sc
    case Str(lo, hi, fmt) =>
      if v.Some? && v.value.JString? && LengthOk(v.value.s, lo, hi) && HasFormat(f, fmt, v.value.s)
      then Some(v) else None
    case Boolean =>
      if v.Some? && v.value.JBool? then Some(v) else None
    case Number(lo, hi) =>
      if v.Some? && v.value.JNumber? && lo <= v.value.n <= hi then Some(v) else None
    case Literal(t) =>
      if v == Some(JString(t)) then Some(v) else None
    case Optional(inner) =>
      if v.None? then Some(None) else Parse(inner, v, f)
    case Nullable(inner) =>
      if v == Some(JNull) then Some(v) else Parse(inner, v, f)
    case Or(l, r) =>
      var first := Parse(l, v, f);
      if first.Some? then first else Parse(r, v, f)
    case Default(inner, d) =>
      if v.None? then Parse(inner, Some(d), f) else Parse(inner, v, f)
  }

  /** The schema has no `.default(...)` anywhere. */
  predicate Defaultless(sc: Schema)
  {
    match sc
    case Default(_, _) => false
    case Optional(inner) => Defaultless(inner)
    case Nullable(inner) => Defaultless(inner)
    case Or(l, r) => Defaultless(l) && Defaultless(r)
    case _ => true
  }

  /** Without a default, a successful parse outputs exactly its input: a
      missing value stays missing. */
  lemma {:induction false} DefaultlessKeepsInput(sc: Schema, v: Option<Json>, f: Formats)
    requires Defaultless(sc) && Parse(sc, v, f).Some?
    ensures Parse(sc, v, f).value == v
    decreases sc
  {
    match sc
    case Optional(inner) =>
      if v.Some? { DefaultlessKeepsInput(inner, v, f); }
    case Nullable(inner) =>
      if v != Some(JNull) { DefaultlessKeepsInput(inner, v, f); }
    case Or(l, r) =>
      if Parse(l, v, f).Some? { DefaultlessKeepsInput(l, v, f); } else { DefaultlessKeepsInput(r, v, f); }
    case _ =>
  }

  /** The keys an object schema knows, with the schema of each. */
  type Shape = seq<(string, Schema)>

  function KeysOf(shape: Shape): set<string>
  {
    set i | 0 <= i < |shape| :: shape[i].0
  }

  predicate DistinctKeys(shape: Shape)
  {
    forall i, j :: 0 <= i < j < |shape| ==> shape[i].0 != shape[j].0
  }

  /** The outcome of parsing the entry of `b` that `entry` describes. */
  function ParseEntry(entry: (string, Schema), b: Body, f: Formats): Option<Option<Json>>
  {
    Parse(entry.1, Lookup(b, entry.0), f)
  }

  /** `z.object(shape).parse(b)`: every key of the shape must parse; the
      output keeps the keys whose parsed value is defined and drops every key
      the shape does not mention. */
  function ParseObject(shape: Shape, b: Body, f: Formats): (r: Option<Body>)
    ensures r.Some? <==> forall i :: 0 <= i < |shape| ==> ParseEntry(shape[i], b, f).Some?
    ensures r.Some? ==> r.value.Keys <= KeysOf(shape)
    ensures r.Some? && DistinctKeys(shape) ==>
      forall i :: 0 <= i < |shape| ==> Lookup(r.value, shape[i].0) == ParseEntry(shape[i], b, f).value
  {
    if |shape| == 0 then Some(map[])
    else
      var head := ParseEntry(shape[0], b, f);
      var rest := ParseObject(shape[1..], b, f);
      assert forall i :: 1 <= i < |shape| ==> shape[i] == shape[1..][i - 1];
      assert KeysOf(shape[1..]) <= KeysOf(shape) by {
        forall k | k in KeysOf(shape[1..]) ensures k in KeysOf(shape) {
          var i :| 0 <= i < |shape[1..]| && shape[1..][i].0 == k;
          assert shape[i + 1].0 == k;
        }
      }
      if head.None? || rest.None? then None
      else if head.value.None? then rest
      else Some(rest.value[shape[0].0 := head.value.value])
  }

  /** True when `z.object(shape).parse(b)` does not throw. */
  predicate Accepts(shape: Shape, b: Body, f: Formats)
  {
    ParseObject(shape, b, f).Some?
  }
}
