/** The values a JSON request body can hold, and the JavaScript operations the handlers
    apply to them: truthiness, `===`, optional chaining into `trim()`, `.length`,
    and the coercions `Number(x)` and `String(x)`. */
module JsValues {
  import opened JsText

  /** A parsed JSON value; `Undefined` stands for a key the body does not have. JSON
      numbers are finite, so a number is a `real`. */
  datatype JsValue =
    | Undefined
    | Null
    | Bool(b: bool)
    | Num(n: real)
    | Str(s: string)
    | Arr(items: seq<JsValue>)
    | Obj(fields: map<string, JsValue>)

  /** A JSON request body, `req.body`. */
  type JsObject = map<string, JsValue>

  /** The result of `Number(x)`: a finite value, NaN or an infinity. */
  datatype JsNumber = Finite(r: real) | NaN | PosInf | NegInf

  /** `body[key]`: a missing key reads as `undefined`. */
  function Lookup(o: JsObject, key: string): (v: JsValue)
    ensures key !in o ==> v == Undefined
    ensures key in o ==> v == o[key]
  {
    if key in o then o[key] else Undefined
  }

  predicate IsNullish(v: JsValue) {
    v == Undefined || v == Null
  }

  /** JavaScript truthiness: `undefined`, `null`, `false`, `0` and `""` are falsy;
      every array and object is truthy, even an empty one. */
  predicate Truthy(v: JsValue) {
    match v
    case Undefined => false
    case Null => false
    case Bool(b) => b
    case Num(n) => n != 0.0
    case Str(s) => s != ""
    case Arr(_) => true
    case Obj(_) => true
  }

  /** `a === b` between two values parsed from one JSON body: primitives compare by value,
      while two arrays or objects are never the same reference. */
  predicate StrictEquals(a: JsValue, b: JsValue) {
    !a.Arr? && !a.Obj? && a == b
  }

  /** The falsiness of a coerced number, as `Number(x) || 0` sees it: 0 and NaN. */
  predicate FalsyNumber(n: JsNumber) {
    n == NaN || n == Finite(0.0)
  }

  /** The digits after the point of a fraction 0 <= f < 1, at most `fuel` of them. */
  function FractionDigits(f: real, fuel: nat): string
    requires 0.0 <= f < 1.0
    decreases fuel
  {
    if f == 0.0 || fuel == 0 then ""
    else
      var d := (f * 10.0).Floor;
      [DigitChar(d)] + FractionDigits(f * 10.0 - d as real, fuel - 1)
  }

  function UnsignedToString(r: real): string
    requires r >= 0.0
  {
    var whole := r.Floor;
    var frac := r - whole as real;
    NatToString(whole) + (if frac == 0.0 then "" else "." + FractionDigits(frac, 20))
  }

  /** The text `String(n)` gives a finite number, in plain decimal notation. */
  function NumberToString(r: real): string {
    if r < 0.0 then "-" + UnsignedToString(-r) else UnsignedToString(r)
  }

  /** `String(v)`: arrays join their elements with commas, writing `null` and
      `undefined` elements as empty text. */
  function ToJsString(v: JsValue): string
    decreases v, 1, 0
  {
    match v
    case Undefined => "undefined"
    case Null => "null"
    case Bool(b) => if b then "true" else "false"
    case Num(n) => NumberToString(n)
    case Str(s) => s
    case Arr(items) => ElementsText(v, 0)
    case Obj(_) => "[object Object]"
  }

  /** The comma-joined text of the elements of array `v` from index `i` on. */
  function ElementsText(v: JsValue, i: nat): string
    requires v.Arr? && i <= |v.items|
    decreases v, 0, |v.items| - i
  {
    if i == |v.items| then ""
    else
      var e := v.items[i];
      var text := if IsNullish(e) then "" else ToJsString(e);
      if i + 1 == |v.items| then text else text + "," + ElementsText(v, i + 1)
  }

  /** The mantissa of a decimal numeral: digits, optionally one point and more digits,
      at least one digit in all. */
  function MantissaToNumber(t: string): JsNumber {
    var k := IndexOf(t, '.');
    var whole := t[..k];
    var frac := if k < |t| then t[k + 1..] else "";
    if |whole| + |frac| > 0 && AllDigits(whole) && AllDigits(frac) then
      Finite(DigitsValue(whole) as real + DigitsValue(frac) as real / Pow10(|frac|) as real)
    else NaN
  }

  /** The exponent of a numeral, after its `e` or `E`: an optional sign and at least one
      digit. */
  predicate IsExponent(t: string) {
    if t != [] && (t[0] == '+' || t[0] == '-') then |t| > 1 && AllDigits(t[1..])
    else t != [] && AllDigits(t)
  }

  function ExponentValue(t: string): int
    requires IsExponent(t)
  {
    if t[0] == '-' then -(DigitsValue(t[1..]) as int)
    else if t[0] == '+' then DigitsValue(t[1..])
    else DigitsValue(t)
  }

  /** `r` times ten to the power `e`. */
  function Scale(r: real, e: int): real {
    if e >= 0 then r * Pow10(e) as real else r / Pow10(-e) as real
  }

  /** A non-negative exponent multiplies. */
  lemma ScaleUp(r: real, e: nat)
    ensures Scale(r, e) == r * Pow10(e) as real
  {
  }

  /** The position of the first `e` or `E`, or the length when there is none. */
  function ExponentMark(t: string): (k: nat)
    ensures k <= |t|
    ensures k < |t| ==> t[k] == 'e' || t[k] == 'E'
    ensures forall i :: 0 <= i < k ==> t[i] != 'e' && t[i] != 'E'
  {
    var e, E := IndexOf(t, 'e'), IndexOf(t, 'E');
    if e <= E then e else E
  }

  /** A decimal numeral without sign: a mantissa, optionally followed by `e` or `E` and
      an exponent. */
  function DecimalToNumber(t: string): JsNumber {
    var k := ExponentMark(t);
    var mantissa := MantissaToNumber(t[..k]);
    if k == |t| then mantissa
    else if mantissa.Finite? && IsExponent(t[k + 1..]) then
      Finite(Scale(mantissa.r, ExponentValue(t[k + 1..])))
    else NaN
  }

  /** An unsigned numeral: `Infinity` or a decimal. */
  function UnsignedToNumber(u: string): JsNumber {
    if u == "Infinity" then PosInf else DecimalToNumber(u)
  }

  function Negate(n: JsNumber): JsNumber {
    match n
    case Finite(r) => Finite(-r)
    case NaN => NaN
    case PosInf => NegInf
    case NegInf => PosInf
  }

  /** `Number(s)` for a string: surrounding whitespace is ignored, blank text is 0,
      and a sign may precede a decimal or `Infinity`. */
  function StringToNumber(s: string): JsNumber {
    var t := Trim(s);
    if t == "" then Finite(0.0)
    else if t[0] == '-' then Negate(UnsignedToNumber(t[1..]))
    else if t[0] == '+' then UnsignedToNumber(t[1..])
    else UnsignedToNumber(t)
  }

  /** `Number(v)`: `undefined` is NaN, `null` and `false` are 0, `true` is 1, and an
      array or object is converted through its `String` text. */
  function ToNumber(v: JsValue): JsNumber {
    match v
    case Undefined => NaN
    case Null => Finite(0.0)
    case Bool(b) => Finite(if b then 1.0 else 0.0)
    case Num(n) => Finite(n)
    case Str(s) => StringToNumber(s)
    case Arr(_) => StringToNumber(ToJsString(v))
    case Obj(_) => StringToNumber(ToJsString(v))
  }

  /** A run of digits reads as its decimal value. */
  lemma DigitsToNumber(t: string)
    requires |t| >= 1 && AllDigits(t)
    ensures StringToNumber(t) == Finite(DigitsValue(t) as real)
  {
    DigitsHaveNoSpace(t);
    DigitsAreDecimal(t);
    assert IsDigit(t[0]);
    assert UnsignedToNumber(t) == DecimalToNumber(t);
  }

  lemma DigitsAreDecimal(t: string)
    requires |t| >= 1 && AllDigits(t)
    ensures DecimalToNumber(t) == Finite(DigitsValue(t) as real)
  {
    DigitsAreMantissa(t);
    DigitsLack(t, 'e');
    DigitsLack(t, 'E');
    assert ExponentMark(t) == |t|;
    assert t[..|t|] == t;
  }

  lemma DigitsAreMantissa(t: string)
    requires |t| >= 1 && AllDigits(t)
    ensures MantissaToNumber(t) == Finite(DigitsValue(t) as real)
  {
    DigitsLack(t, '.');
    assert t[..|t|] == t;
    assert DigitsValue("") == 0 && Pow10(0) == 1;
  }

  lemma {:induction false} DigitsLack(t: string, c: char)
    requires AllDigits(t) && !IsDigit(c)
    ensures IndexOf(t, c) == |t|
  {
    if t != [] {
      assert IsDigit(t[0]);
      assert AllDigits(t[1..]) by {
        assert forall i :: 0 <= i < |t[1..]| ==> t[1..][i] == t[i + 1];
      }
      DigitsLack(t[1..], c);
    }
  }

  /** An `e` between two runs of digits separates mantissa and exponent. */
  lemma DigitsWithExponent(d: string, x: string)
    requires |d| >= 1 && AllDigits(d) && |x| >= 1 && AllDigits(x)
    ensures DecimalToNumber(d + "e" + x) == Finite(Scale(DigitsValue(d) as real, DigitsValue(x)))
  {
    var t := d + "e" + x;
    assert ExponentMark(t) == |d| by {
      DigitsLack(d, 'e');
      DigitsLack(d, 'E');
      assert forall i :: 0 <= i < |d| ==> t[i] == d[i];
      assert t[|d|] == 'e';
    }
    assert t[..|d|] == d;
    assert t[|d| + 1..] == x;
    DigitsAreMantissa(d);
    assert IsDigit(x[0]);
    assert IsExponent(x) && ExponentValue(x) == DigitsValue(x);
  }

  lemma DigitsWithExponentUntrimmed(d: string, x: string)
    requires AllDigits(d) && AllDigits(x)
    ensures Trim(d + "e" + x) == d + "e" + x
  {
    var t := d + "e" + x;
    assert NoSpace(t) by {
      forall i | 0 <= i < |t| ensures !IsSpace(t[i]) {
        if i < |d| {
          assert t[i] == d[i] && IsDigit(d[i]);
        } else if i > |d| {
          assert t[i] == x[i - |d| - 1] && IsDigit(x[i - |d| - 1]);
        }
      }
    }
  }

  /** A run of digits, `e`, and another run of digits reads as the first run's value
      scaled by ten to the second's (see `ScaleUp`): `Number("1e3")` is 1000. */
  lemma ExponentNotation(d: string, x: string)
    requires |d| >= 1 && AllDigits(d) && |x| >= 1 && AllDigits(x)
    ensures StringToNumber(d + "e" + x) == Finite(Scale(DigitsValue(d) as real, DigitsValue(x)))
  {
    var t := d + "e" + x;
    DigitsWithExponentUntrimmed(d, x);
    assert IsDigit(t[0]) by { assert t[0] == d[0]; }
    DigitsWithExponent(d, x);
    assert StringToNumber(t) == DecimalToNumber(t);
  }

  /** `Number("1e3")` is 1000. */
  lemma ExponentThousand()
    ensures ToNumber(Str("1e3")) == Finite(1000.0)
  {
    assert ToNumber(Str("1e3")) == Finite(Scale(1.0, 3)) by {
      assert "1e3" == "1" + "e" + "3";
      ExponentNotation("1", "3");
      assert DigitsValue("1") == 1 && DigitsValue("3") == 3;
    }
    assert Scale(1.0, 3) == 1000.0 by {
      ScaleUp(1.0, 3);
      assert Pow10(3) == 1000;
    }
  }

  lemma DigitsHaveNoSpace(t: string)
    requires AllDigits(t)
    ensures Trim(t) == t
  {
    assert NoSpace(t) by {
      forall i | 0 <= i < |t| ensures !IsSpace(t[i]) {
        assert IsDigit(t[i]);
      }
    }
  }

  /** `Number(String(n))` gives back every natural number. */
  lemma NaturalTextRoundTrip(n: nat)
    ensures StringToNumber(NatToString(n)) == Finite(n as real)
  {
    DigitsToNumber(NatToString(n));
    NatToStringValue(n);
  }

  /** `Number(x)` and `String(x)` agree on a number written as a natural: the JSON
      number 0 becomes the text "0". */
  lemma NumberTextOfNatural(n: nat)
    ensures ToJsString(Num(n as real)) == NatToString(n)
    ensures ToNumber(Str(ToJsString(Num(n as real)))) == Finite(n as real)
  {
    assert (n as real).Floor == n;
    NaturalTextRoundTrip(n);
  }

  /** What `v?.trim()` does: nothing for a nullish value, trims a string, and throws a
      TypeError for any other value, which has no `trim` method. */
  datatype Trimmed = Missing | Text(s: string) | NotAString

  function OptionalTrim(v: JsValue): (t: Trimmed)
    ensures t.Text? <==> v.Str?
    ensures t.Missing? <==> IsNullish(v)
    ensures t.Text? ==> t.s == Trim(v.s)
  {
    if IsNullish(v) then Missing else if v.Str? then Text(Trim(v.s)) else NotAString
  }

  /** `!v?.trim()`: the value is missing or trims to empty text. */
  predicate BlankAfterTrim(t: Trimmed) {
    t.Missing? || (t.Text? && t.s == "")
  }

  /** `v.length` for a value that is truthy, so that property access does not throw: a
      string counts its UTF-16 code units. */
  function LengthOf(v: JsValue): JsValue {
    match v
    case Str(s) => Num(Utf16Length(s) as real)
    case Arr(items) => Num(|items| as real)
    case Obj(fields) => Lookup(fields, "length")
    case _ => Undefined
  }

  /** `v < bound` against a number: the value is coerced with `Number`, and NaN
      compares false. */
  predicate LooselyBelow(v: JsValue, bound: real) {
    match ToNumber(v)
    case Finite(r) => r < bound
    case NegInf => true
    case _ => false
  }
}
