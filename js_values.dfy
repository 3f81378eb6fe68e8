/**
  The JavaScript values the two scripts handle: what JSON.parse returns, the
  `undefined` that a property read yields for a missing key, property reads
  (plain and optional-chaining), truthiness and object spread.
 */
module JsValues {
  import opened Results

  /** A value produced by JSON.parse. Numbers are reals (IEEE-754 rounding is
      not modelled); object keys form a map (their enumeration order is not
      modelled). */
  datatype Json =
    | JNull
    | JBool(b: bool)
    | JNumber(n: real)
    | JString(s: string)
    | JArray(items: seq<Json>)
    | JObject(fields: map<string, Json>)

  /** The result of reading a property: `undefined`, or a JSON value. */
  datatype Prop = Undefined | Defined(value: Json)

  /** The decimal numeral of `n`, as `String(n)` writes it; array indices and
      HTTP status codes are shown this way. */
  function Decimal(n: nat): (r: string)
    ensures |r| >= 1 && (|r| == 1 <==> n < 10)
    ensures forall i :: 0 <= i < |r| ==> '0' <= r[i] <= '9'
    ensures |r| > 1 ==> r[0] != '0'
  {
    if n < 10 then [(n + 48) as char] else Decimal(n / 10) + [(n % 10 + 48) as char]
  }

  lemma {:induction false} DecimalInjective(a: nat, b: nat)
    ensures Decimal(a) == Decimal(b) ==> a == b
  {
    if Decimal(a) == Decimal(b) && a >= 10 && b >= 10 {
      var da, db := Decimal(a), Decimal(b);
      assert da[..|da| - 1] == Decimal(a / 10);
      assert db[..|db| - 1] == Decimal(b / 10);
      assert da[|da| - 1] == db[|db| - 1];
      DecimalInjective(a / 10, b / 10);
    }
  }

  lemma DecimalsAreDistinct()
    ensures forall a: nat, b: nat {:trigger Decimal(a), Decimal(b)} :: Decimal(a) == Decimal(b) ==> a == b
  {
    forall a: nat, b: nat
      ensures Decimal(a) == Decimal(b) ==> a == b
    {
      DecimalInjective(a, b);
    }
  }

  /** `x.key` for a key that is neither an array index nor a built-in property
      (every key the scripts read is of this kind); None when the read throws a
      TypeError, which happens exactly on `undefined` and `null`. */
  function GetProperty(x: Prop, key: string): (r: Option<Prop>)
    ensures r.None? <==> x == Undefined || x == Defined(JNull)
    ensures r.Some? && r.value.Defined? <==> x.Defined? && x.value.JObject? && key in x.value.fields
    ensures r.Some? && r.value.Defined? ==> r.value.value == x.value.fields[key]
  {
    match x
    case Undefined => None
    case Defined(JNull) => None
    case Defined(JObject(fields)) => Some(if key in fields then Defined(fields[key]) else Undefined)
    case Defined(_) => Some(Undefined)
  }

  /** `x[i]`: an element of an array, a one-character string of a string, or
      the property named by the numeral of `i`; None on `undefined` and `null`. */
  function GetIndex(x: Prop, i: nat): (r: Option<Prop>)
    ensures r.None? <==> x == Undefined || x == Defined(JNull)
    ensures x.Defined? && x.value.JArray? ==> r == Some(if i < |x.value.items| then Defined(x.value.items[i]) else Undefined)
  {
    match x
    case Undefined => None
    case Defined(JNull) => None
    case Defined(JArray(items)) => Some(if i < |items| then Defined(items[i]) else Undefined)
    case Defined(JString(s)) => Some(if i < |s| then Defined(JString([s[i]])) else Undefined)
    case Defined(JObject(fields)) => Some(if Decimal(i) in fields then Defined(fields[Decimal(i)]) else Undefined)
    case Defined(_) => Some(Undefined)
  }

  /** Optional chaining `x?.key`: `undefined` when `x` is `undefined` or `null`. */
  function OptionalProperty(x: Prop, key: string): (r: Prop)
    ensures x == Undefined || x == Defined(JNull) ==> r == Undefined
    ensures r.Defined? ==> x.value.JObject? && key in x.value.fields && r.value == x.value.fields[key]
    ensures x.Defined? && x.value.JObject? && key in x.value.fields ==> r == Defined(x.value.fields[key])
  {
    if x == Undefined || x == Defined(JNull) then Undefined else GetProperty(x, key).value
  }

  /** Optional chaining `x?.[i]`: `undefined` when `x` is `undefined` or
      `null`, and otherwise what the plain read `x[i]` gives. */
  function OptionalIndex(x: Prop, i: nat): (r: Prop)
    ensures x == Undefined || x == Defined(JNull) ==> r == Undefined
    ensures x != Undefined && x != Defined(JNull) ==> GetIndex(x, i) == Some(r)
    ensures x.Defined? && x.value.JArray? ==> r == if i < |x.value.items| then Defined(x.value.items[i]) else Undefined
  {
    if x == Undefined || x == Defined(JNull) then Undefined else GetIndex(x, i).value
  }

  /** JavaScript's `!x`: undefined, null, false, 0 and the empty string are falsy
      (NaN never comes out of JSON.parse). */
  predicate IsFalsy(x: Prop) {
    match x
    case Undefined => true
    case Defined(v) => v == JNull || v == JBool(false) || v == JNumber(0.0) || v == JString("")
  }

  /** The elements of an array keyed by their index numerals. */
  function IndexedItems(items: seq<Json>): (r: map<string, Json>)
    ensures forall i :: 0 <= i < |items| ==> Decimal(i) in r && r[Decimal(i)] == items[i]
    ensures forall k :: k in r ==> exists i :: 0 <= i < |items| && k == Decimal(i)
  {
    DecimalsAreDistinct();
    map i | 0 <= i < |items| :: Decimal(i) := items[i]
  }

  /** The characters of a string, as one-character strings keyed by their
      index numerals. */
  function IndexedChars(s: string): (r: map<string, Json>)
    ensures forall i :: 0 <= i < |s| ==> Decimal(i) in r && r[Decimal(i)] == JString([s[i]])
    ensures forall k :: k in r ==> exists i :: 0 <= i < |s| && k == Decimal(i)
  {
    DecimalsAreDistinct();
    map i | 0 <= i < |s| :: Decimal(i) := JString([s[i]])
  }

  /** The own enumerable properties that `{...v}` copies: an object's fields,
      an array's elements and a string's characters under their index
      numerals, and nothing for null, booleans and numbers. */
  function Spread(v: Json): map<string, Json>
  {
    match v
    case JObject(fields) => fields
    case JArray(items) => IndexedItems(items)
    case JString(s) => IndexedChars(s)
    case _ => map[]
  }
}
