/**
  The part of zod's object parsing the schemas of this service use: string, number and
  boolean fields with length, email and integer checks; required, optional and defaulted
  fields; the strip (default) and strict policies for unknown keys; and `.partial()`.
  Issues are collected in field order, the strict-mode issue last, as zod 3 does.
  Email syntax is a parameter: `isEmail` stands for zod's email pattern.
 */
module Zod {
  import opened Wrappers
  import opened Json

  /** A `ZodIssue`: its code, the path of keys to the offending value, and its message. */
  datatype Issue = Issue(code: string, path: seq<string>, message: string)

  /** A refinement on a primitive, with the custom message the schema gives it. */
  datatype Check = MinLength(min: nat, message: string) | Email(message: string) | Integer(message: string)

  datatype Base = ZString(checks: seq<Check>) | ZNumber(checks: seq<Check>) | ZBoolean

  /** `.optional()` / `.default(v)` / neither. */
  datatype Presence = Required | Optional | Default(value: Payload)

  datatype Field = Field(key: string, base: Base, presence: Presence)

  /** `z.object({...})`, `.strict()` or not. */
  datatype ObjectSchema = ObjectSchema(fields: seq<Field>, strict: bool)

  /** `schema.safeParse(v)`: the parsed value, or a `ZodError` whose issue list is never empty. */
  datatype ParseResult = Parsed(value: Payload) | Failed(first: Issue, rest: seq<Issue>)

  /** zod's name for the type of a value, as it appears in "Expected …, received …". */
  function TypeName(v: Payload): string {
    match v
    case Undefined => "undefined"
    case Null => "null"
    case Bool(_) => "boolean"
    case Num(_) => "number"
    case Str(_) => "string"
    case Arr(_) => "array"
    case Obj(_) => "object"
  }

  function BaseName(b: Base): string {
    match b
    case ZString(_) => "string"
    case ZNumber(_) => "number"
    case ZBoolean => "boolean"
  }

  predicate HasBaseType(b: Base, v: Payload) {
    match b
    case ZString(_) => v.Str?
    case ZNumber(_) => v.Num?
    case ZBoolean => v.Bool?
  }

  predicate IsIntegral(n: real) {
    n.Floor as real == n
  }

  /** When a check is satisfied; a check that does not apply to the value's type holds. */
  predicate CheckHolds(c: Check, v: Payload, isEmail: string -> bool) {
    match c
    case MinLength(min, _) => v.Str? ==> Utf16Length(v.s) >= min
    case Email(_) => v.Str? ==> isEmail(v.s)
    case Integer(_) => v.Num? ==> IsIntegral(v.n)
  }

  /** The issue a failed check reports. */
  function CheckIssue(c: Check, path: seq<string>): Issue {
    match c
    case MinLength(_, message) => Issue("too_small", path, message)
    case Email(message) => Issue("invalid_string", path, message)
    case Integer(message) => Issue("invalid_type", path, message)
  }

  /** Every check runs; each failing one adds its issue, in order. */
  function CheckIssues(checks: seq<Check>, v: Payload, path: seq<string>, isEmail: string -> bool): (issues: seq<Issue>)
    ensures issues == [] <==> forall i :: 0 <= i < |checks| ==> CheckHolds(checks[i], v, isEmail)
    ensures |issues| <= |checks|
  {
    if checks == [] then []
    else
      var rest := CheckIssues(checks[1..], v, path, isEmail);
      if CheckHolds(checks[0], v, isEmail) then rest else [CheckIssue(checks[0], path)] + rest
  }

  /** A value is accepted by a base type when it has that type and passes every check. */
  predicate ValueAccepts(b: Base, v: Payload, isEmail: string -> bool) {
    && HasBaseType(b, v)
    && match b
       case ZString(checks) => forall i :: 0 <= i < |checks| ==> CheckHolds(checks[i], v, isEmail)
       case ZNumber(checks) => forall i :: 0 <= i < |checks| ==> CheckHolds(checks[i], v, isEmail)
       case ZBoolean => true
  }

  /** A type mismatch aborts with one `invalid_type` issue; otherwise the checks run. */
  function ValueIssues(b: Base, v: Payload, path: seq<string>, isEmail: string -> bool): (issues: seq<Issue>)
    ensures issues == [] <==> ValueAccepts(b, v, isEmail)
  {
    if !HasBaseType(b, v) then
      [Issue("invalid_type", path, if v.Undefined? then "Required" else "Expected " + BaseName(b) + ", received " + TypeName(v))]
    else
      match b
      case ZString(checks) => CheckIssues(checks, v, path, isEmail)
      case ZNumber(checks) => CheckIssues(checks, v, path, isEmail)
      case ZBoolean => []
  }

  /** A base with a single check accepts exactly the values of its type that pass the check. */
  lemma SingleCheck(b: Base, c: Check, v: Payload, isEmail: string -> bool)
    requires b == ZString([c]) || b == ZNumber([c])
    ensures ValueAccepts(b, v, isEmail) <==> HasBaseType(b, v) && CheckHolds(c, v, isEmail)
  {
    assert [c][0] == c;
  }

  function Get(input: map<string, Payload>, key: string): Payload {
    if key in input then input[key] else Undefined
  }

  /** When one field of an object is acceptable: a missing optional field always is, a missing
      defaulted field is when its default is, and a present value must be accepted by the base. */
  predicate FieldAccepts(f: Field, input: map<string, Payload>, isEmail: string -> bool) {
    var v := Get(input, f.key);
    if v == Undefined then
      match f.presence
      case Required => false
      case Optional => true
      case Default(d) => ValueAccepts(f.base, d, isEmail)
    else ValueAccepts(f.base, v, isEmail)
  }

  function FieldIssues(f: Field, input: map<string, Payload>, isEmail: string -> bool): (issues: seq<Issue>)
    ensures issues == [] <==> FieldAccepts(f, input, isEmail)
  {
    var v := Get(input, f.key);
    if v == Undefined then
      match f.presence
      case Required => ValueIssues(f.base, v, [f.key], isEmail)
      case Optional => []
      case Default(d) => ValueIssues(f.base, d, [f.key], isEmail)
    else ValueIssues(f.base, v, [f.key], isEmail)
  }

  /** The issues of all fields, in the order the schema lists them. */
  function FieldsIssues(fields: seq<Field>, input: map<string, Payload>, isEmail: string -> bool): (issues: seq<Issue>)
    ensures issues == [] <==> forall i :: 0 <= i < |fields| ==> FieldAccepts(fields[i], input, isEmail)
  {
    if fields == [] then []
    else FieldIssues(fields[0], input, isEmail) + FieldsIssues(fields[1..], input, isEmail)
  }

  /** What the parsed object holds under a field's key: the input value, the default for a
      missing defaulted field, nothing for a missing optional one. */
  function FieldOutput(f: Field, input: map<string, Payload>): Option<Payload> {
    var v := Get(input, f.key);
    if v != Undefined then Some(v)
    else if f.presence.Default? then Some(f.presence.value)
    else if f.key in input then Some(Undefined)
    else None
  }

  function KeysOf(fields: seq<Field>): set<string> {
    set i | 0 <= i < |fields| :: fields[i].key
  }

  predicate UniqueKeys(fields: seq<Field>) {
    forall i, j :: 0 <= i < j < |fields| ==> fields[i].key != fields[j].key
  }

  /** The parsed object: only the schema's keys survive. */
  function Output(fields: seq<Field>, input: map<string, Payload>): (out: map<string, Payload>)
    ensures out.Keys <= KeysOf(fields)
  {
    if fields == [] then map[]
    else
      var rest := Output(fields[1..], input);
      assert KeysOf(fields) == {fields[0].key} + KeysOf(fields[1..]) by {
        forall k | k in KeysOf(fields[1..]) ensures k in KeysOf(fields) {
          var i :| 0 <= i < |fields[1..]| && fields[1..][i].key == k;
          assert fields[i + 1].key == k;
        }
      }
      match FieldOutput(fields[0], input)
      case Some(v) => rest[fields[0].key := v]
      case None => rest
  }

  /** The keys a strict schema rejects. */
  function UnknownKeys(s: ObjectSchema, input: map<string, Payload>): set<string> {
    input.Keys - KeysOf(s.fields)
  }

  function StrictIssues(s: ObjectSchema, input: map<string, Payload>): (issues: seq<Issue>)
    ensures issues == [] <==> !s.strict || UnknownKeys(s, input) == {}
  {
    if s.strict && UnknownKeys(s, input) != {} then [Issue("unrecognized_keys", [], "Unrecognized key(s) in object")] else []
  }

  /** Fields read only their own keys, so binding a key outside the schema leaves every field's
      verdict as it was. */
  lemma ExtraKeyKeepsFields(fields: seq<Field>, input: map<string, Payload>, extra: string, v: Payload, isEmail: string -> bool)
    requires extra !in KeysOf(fields)
    ensures forall i :: 0 <= i < |fields| ==>
              (FieldAccepts(fields[i], input[extra := v], isEmail) <==> FieldAccepts(fields[i], input, isEmail))
  {
    forall i | 0 <= i < |fields|
      ensures FieldAccepts(fields[i], input[extra := v], isEmail) <==> FieldAccepts(fields[i], input, isEmail)
    {
      assert fields[i].key in KeysOf(fields);
      assert Get(input[extra := v], fields[i].key) == Get(input, fields[i].key);
    }
  }

  /** Acceptance stated field by field, independently of how issues are collected. */
  predicate Accepts(s: ObjectSchema, input: map<string, Payload>, isEmail: string -> bool) {
    && (forall i :: 0 <= i < |s.fields| ==> FieldAccepts(s.fields[i], input, isEmail))
    && (s.strict ==> input.Keys <= KeysOf(s.fields))
  }

  /** `schema.safeParse(v)`. */
  function Parse(s: ObjectSchema, v: Payload, isEmail: string -> bool): (r: ParseResult)
    ensures r.Parsed? <==> v.Obj? && Accepts(s, v.fields, isEmail)
    ensures r.Parsed? ==> r.value.Obj? && r.value.fields.Keys <= KeysOf(s.fields)
    ensures r.Failed? && v.Obj? ==> [r.first] + r.rest == FieldsIssues(s.fields, v.fields, isEmail) + StrictIssues(s, v.fields)
  {
    if !v.Obj? then
      Failed(Issue("invalid_type", [], if v.Undefined? then "Required" else "Expected object, received " + TypeName(v)), [])
    else
      var issues := FieldsIssues(s.fields, v.fields, isEmail) + StrictIssues(s, v.fields);
      assert UnknownKeys(s, v.fields) == {} <==> v.fields.Keys <= KeysOf(s.fields) by {
        if UnknownKeys(s, v.fields) == {} {
          forall k | k in v.fields.Keys ensures k in KeysOf(s.fields) {
            assert k !in UnknownKeys(s, v.fields);
          }
        }
      }
      if issues == [] then Parsed(Obj(Output(s.fields, v.fields)))
      else Failed(issues[0], issues[1..])
  }

  /** With distinct keys, the parsed object holds exactly each field's output. */
  lemma {:induction false} OutputAt(fields: seq<Field>, input: map<string, Payload>, i: nat)
    requires UniqueKeys(fields) && i < |fields|
    ensures FieldOutput(fields[i], input).Some? ==>
              fields[i].key in Output(fields, input) && Output(fields, input)[fields[i].key] == FieldOutput(fields[i], input).value
    ensures FieldOutput(fields[i], input).None? ==> fields[i].key !in Output(fields, input)
  {
    if i > 0 {
      OutputAt(fields[1..], input, i - 1);
      assert fields[1..][i - 1] == fields[i];
      assert fields[0].key != fields[i].key;
    } else {
      var k := fields[0].key;
      forall j | 0 <= j < |fields[1..]| ensures fields[1..][j].key != k {
        assert fields[1..][j] == fields[j + 1];
      }
      assert k !in KeysOf(fields[1..]);
    }
  }

  /** `.partial()`: every field becomes optional; a default is no longer applied. */
  function Partial(s: ObjectSchema): (p: ObjectSchema)
    ensures |p.fields| == |s.fields| && p.strict == s.strict
    ensures forall i :: 0 <= i < |p.fields| ==>
              p.fields[i] == Field(s.fields[i].key, s.fields[i].base, Optional)
  {
    ObjectSchema(seq(|s.fields|, i requires 0 <= i < |s.fields| => s.fields[i].(presence := Optional)), s.strict)
  }

  /** A partial schema accepts whatever its base accepts, and also every object that leaves
      fields out, the empty one included. */
  lemma PartialAcceptsMore(s: ObjectSchema, v: Payload, isEmail: string -> bool)
    requires Parse(s, v, isEmail).Parsed?
    ensures Parse(Partial(s), v, isEmail).Parsed?
  {
    var p := Partial(s);
    assert KeysOf(p.fields) == KeysOf(s.fields) by {
      forall k | k in KeysOf(s.fields) ensures k in KeysOf(p.fields) {
        var i :| 0 <= i < |s.fields| && s.fields[i].key == k;
        assert p.fields[i].key == k;
      }
    }
    forall i | 0 <= i < |p.fields| ensures FieldAccepts(p.fields[i], v.fields, isEmail) {
      assert FieldAccepts(s.fields[i], v.fields, isEmail);
    }
  }

  lemma PartialAcceptsEmpty(s: ObjectSchema, isEmail: string -> bool)
    ensures Parse(Partial(s), Obj(map[]), isEmail).Parsed?
  {
    var p := Partial(s);
    forall i | 0 <= i < |p.fields| ensures FieldAccepts(p.fields[i], map[], isEmail) {
    }
  }

  /** Under `.partial()` an absent defaulted field stays absent: the default is not applied. */
  lemma PartialSkipsDefault(s: ObjectSchema, input: map<string, Payload>, i: nat)
    requires UniqueKeys(s.fields) && i < |s.fields| && s.fields[i].key !in input
    ensures s.fields[i].presence.Default? ==>
              s.fields[i].key in Output(s.fields, input) && Output(s.fields, input)[s.fields[i].key] == s.fields[i].presence.value
    ensures s.fields[i].key !in Output(Partial(s).fields, input)
  {
    OutputAt(s.fields, input, i);
    var p := Partial(s);
    assert UniqueKeys(p.fields);
    OutputAt(p.fields, input, i);
  }
}
