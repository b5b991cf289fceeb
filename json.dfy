/**
  JavaScript values as they cross the HTTP boundary: request bodies, service payloads,
  error details and response bodies. Only the distinctions the core branches on are kept.
 */
module Json {

  /** A JavaScript value. `Undefined` is what a missing field or argument reads as;
      a JSON body never holds it, and `JSON.stringify` drops a key bound to it. */
  datatype Payload =
    | Undefined
    | Null
    | Bool(b: bool)
    | Num(n: real)
    | Str(s: string)
    | Arr(items: seq<Payload>)
    | Obj(fields: map<string, Payload>)

  /** JavaScript's `s.length`: the number of UTF-16 code units. A character outside the Basic
      Multilingual Plane is a surrogate pair and counts twice. */
  function Utf16Length(s: string): (n: nat)
    ensures |s| <= n <= 2 * |s|
    ensures n == 0 <==> s == ""
  {
    if s == [] then 0 else Utf16Length(s[..|s| - 1]) + (if s[|s| - 1] as int > 0xFFFF then 2 else 1)
  }

  /** Code units add up over concatenation. */
  lemma {:induction false} Utf16LengthAppend(a: string, b: string)
    ensures Utf16Length(a + b) == Utf16Length(a) + Utf16Length(b)
    decreases |b|
  {
    if b != [] {
      var b' := b[..|b| - 1];
      assert (a + b)[..|a + b| - 1] == a + b';
      Utf16LengthAppend(a, b');
    } else {
      assert a + b == a;
    }
  }

  /** Code units and characters agree on a string inside the Basic Multilingual Plane, and an
      emoji is one character but two code units. */
  lemma Utf16LengthOfBmp(s: string)
    requires forall i :: 0 <= i < |s| ==> s[i] as int <= 0xFFFF
    ensures Utf16Length(s) == |s|
  {
    if s != [] {
      Utf16LengthOfBmp(s[..|s| - 1]);
    }
  }

  /** `Object.keys(v).length`: arrays have one key per index, strings one per UTF-16 code unit, other primitives none.
      (`Object.keys` throws on `null` and `undefined`, so those are excluded.) */
  function KeyCount(v: Payload): (n: nat)
    requires v != Undefined && v != Null
    ensures n > 0 <==> (v.Obj? && v.fields != map[]) || (v.Arr? && v.items != []) || (v.Str? && v.s != "")
  {
    match v
    case Obj(fields) =>
      assert fields != map[] ==> exists k :: k in fields;
      |fields|
    case Arr(items) => |items|
    case Str(s) => Utf16Length(s)
    case Bool(_) => 0
    case Num(_) => 0
  }

  /** JavaScript truthiness: `undefined`, `null`, `false`, `0` and `""` are falsy;
      every object and array, even an empty one, is truthy. (NaN is not modelled.) */
  predicate Truthy(v: Payload) {
    match v
    case Undefined => false
    case Null => false
    case Bool(b) => b
    case Num(n) => n != 0.0
    case Str(s) => s != ""
    case Arr(_) => true
    case Obj(_) => true
  }

  /** The decimal digits of a natural number, as `String(n)` writes them. */
  function NatText(n: nat): (s: string)
    ensures |s| >= 1
    ensures forall i :: 0 <= i < |s| ==> '0' <= s[i] <= '9'
  {
    if n < 10 then [DigitChar(n)] else NatText(n / 10) + [DigitChar(n % 10)]
  }

  function DigitChar(d: nat): (c: char)
    requires d < 10
    ensures '0' <= c <= '9'
  {
    "0123456789"[d]
  }

  /** `${i}` for an integer-valued number: a minus sign before a negative value's digits. */
  function IntText(i: int): (s: string)
    ensures |s| >= 1
    ensures s[0] == '-' <==> i < 0
  {
    if i < 0 then "-" + NatText(-i) else NatText(i)
  }
}
