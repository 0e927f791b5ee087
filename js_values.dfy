/** The JSON values a request body field can hold, with JavaScript's truthiness and
    property-key conversion. */
module JsValues {

  /** A field of a parsed JSON body; `Undefined` is a field that is absent. */
  datatype Json = Undefined | Null | Bool(b: bool) | Num(n: int) | Str(s: string)

  /** `!!v`: `undefined`, `null`, `false`, `0` and `""` are the falsy JSON values. */
  predicate Truthy(v: Json)
    ensures Truthy(v) <==> v !in {Undefined, Null, Bool(false), Num(0), Str("")}
  {
    match v
    case Undefined => false
    case Null => false
    case Bool(b) => b
    case Num(n) => n != 0
    case Str(s) => s != ""
  }

  lemma TruthyStrings(s: string)
    ensures Truthy(Str(s)) <==> |s| > 0
  {
  }

  /** Decimal digits of a natural number. */
  function Digits(n: nat): (r: string)
    ensures |r| > 0
    ensures forall k :: 0 <= k < |r| ==> '0' <= r[k] <= '9'
  {
    var d := ['0' + (n % 10) as char];
    if n < 10 then d else Digits(n / 10) + d
  }

  /** The decimal digits of `n`, with a minus sign when it is negative. */
  function NumberToString(n: int): (r: string)
    ensures |r| > 0
    ensures r[0] == '-' || '0' <= r[0] <= '9'
  {
    if n < 0 then "-" + Digits(-n) else Digits(n)
  }

  /** The property key `obj[v]` looks up: `ToString(v)` for a primitive. */
  function PropertyKey(v: Json): (r: string)
    ensures v.Str? ==> r == v.s
    ensures !v.Str? ==> r in {"undefined", "null", "true", "false"} || (|r| > 0 && (r[0] == '-' || '0' <= r[0] <= '9'))
  {
    match v
    case Undefined => "undefined"
    case Null => "null"
    case Bool(b) => if b then "true" else "false"
    case Num(n) => NumberToString(n)
    case Str(s) => s
  }
}
