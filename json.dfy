/** JSON values as the Worker receives them, and the two JavaScript
    coercions the validators apply to them: String() (through cleanText) and
    Number() (through mustBeInt and the client's select values). */
module JsValue {
  import opened Wrappers
  import opened Text

  /** An exact decimal, mantissa / 10^scale.  JavaScript numbers are binary
      doubles; the model keeps the decimal value that the JSON text or the
      form field spelled out. */
  datatype Dec = Dec(mantissa: int, scale: nat)

  /** What Number() produces: NaN, an infinity, or a finite value. */
  datatype Number = NaN | Infinity(negative: bool) | Finite(d: Dec)

  /** A JSON value as JSON.parse returns it, plus Undefined, which reading a
      missing property yields.  An object lists its own properties in
      enumeration order (the order of Object.keys), each key once. */
  datatype Value =
    | Undefined
    | Null
    | Bool(b: bool)
    | Num(d: Dec)
    | Str(s: string)
    | Arr(items: seq<Value>)
    | Obj(fields: seq<(string, Value)>)

  /** v * 10^k. */
  function Scaled(v: int, k: nat): int {
    if k == 0 then v else 10 * Scaled(v, k - 1)
  }

  /** 10^k divides m. */
  predicate Divisible(m: int, k: nat)
    decreases k
  {
    k == 0 || (m % 10 == 0 && Divisible(m / 10, k - 1))
  }

  /** m / 10^k, for m that 10^k divides. */
  function Quotient(m: int, k: nat): int
    requires Divisible(m, k)
    decreases k
  {
    if k == 0 then m else Quotient(m / 10, k - 1)
  }

  /** Number.isInteger. */
  predicate IsInteger(n: Number) {
    n.Finite? && Divisible(n.d.mantissa, n.d.scale)
  }

  /** The integer an integral number denotes. */
  function IntValue(n: Number): int
    requires IsInteger(n)
  {
    Quotient(n.d.mantissa, n.d.scale)
  }

  /** n === v, for an integer v. */
  predicate EqualsInt(n: Number, v: int) {
    n.Finite? && n.d.mantissa == Scaled(v, n.d.scale)
  }

  lemma {:induction false} QuotientScaled(m: int, k: nat)
    requires Divisible(m, k)
    ensures m == Scaled(Quotient(m, k), k)
    decreases k
  {
    if k > 0 {
      QuotientScaled(m / 10, k - 1);
    }
  }

  lemma {:induction false} ScaledQuotient(v: int, k: nat)
    ensures Divisible(Scaled(v, k), k) && Quotient(Scaled(v, k), k) == v
  {
    if k > 0 {
      ScaledQuotient(v, k - 1);
      assert Scaled(v, k) / 10 == Scaled(v, k - 1);
    }
  }

  /** An integral number denotes its IntValue and no other integer; a number
      that denotes an integer is integral. */
  lemma IntValueExact(n: Number, v: int)
    ensures EqualsInt(n, v) <==> IsInteger(n) && IntValue(n) == v
  {
    if EqualsInt(n, v) {
      ScaledQuotient(v, n.d.scale);
    }
    if IsInteger(n) && IntValue(n) == v {
      QuotientScaled(n.d.mantissa, n.d.scale);
    }
  }

  /** JavaScript truthiness (the test behind `value || ""`). */
  predicate Truthy(v: Value)
    ensures v.Bool? || v.Num? ==> (Truthy(v) <==> !EqualsInt(ToNumber(v).value, 0))
  {
    match v
    case Undefined => false
    case Null => false
    case Bool(b) => b
    case Num(d) => ScaledZero(d.scale); d.mantissa != 0
    case Str(s) => s != ""
    case Arr(_) => true
    case Obj(_) => true
  }

  lemma {:induction false} ScaledZero(k: nat)
    ensures Scaled(0, k) == 0
  {
    if k > 0 {
      ScaledZero(k - 1);
    }
  }

  /** The same decimal with trailing zeros of the fraction dropped. */
  function Normalize(d: Dec): Dec
    decreases d.scale
  {
    if d.scale > 0 && d.mantissa % 10 == 0 then Normalize(Dec(d.mantissa / 10, d.scale - 1)) else d
  }

  function Zeros(k: nat): string {
    seq(k, _ => '0')
  }

  /** Number.prototype.toString for a finite number written out in plain
      decimal notation. */
  function DecToText(d: Dec): string {
    var n := Normalize(d);
    var sign := if n.mantissa < 0 then "-" else "";
    sign + MagnitudeText(if n.mantissa < 0 then -n.mantissa else n.mantissa, n.scale)
  }

  /** a / 10^k in plain decimal notation: the digits of a, padded with zeros
      to more than k digits, with a point before the last k of them. */
  function MagnitudeText(a: nat, k: nat): string {
    var digits := NatToString(a);
    if k == 0 then digits
    else
      var padded := if |digits| <= k then Zeros(k + 1 - |digits|) + digits else digits;
      padded[..|padded| - k] + "." + padded[|padded| - k..]
  }

  /** The elements of an array joined by commas, null and undefined printing
      as "" (Array.prototype.join). */
  function Join(parts: seq<string>): string {
    if parts == [] then ""
    else if |parts| == 1 then parts[0]
    else Join(parts[..|parts| - 1]) + "," + parts[|parts| - 1]
  }

  /** The message of the TypeError that String() and Number() throw when
      converting an object yields no primitive. */
  const TO_PRIMITIVE_ERROR := "Cannot convert object to primitive value"

  const TO_STRING_KEY := "toString"

  /** String(v) and Number(v) throw: v is an object with an own "toString"
      property, which JSON.parse can only make a non-callable value, so the
      conversion skips it and Object.prototype.valueOf hands back the object
      itself; or v is an array one of whose elements is such a value, since
      Array.prototype.join converts each element that is not null or
      undefined. */
  predicate Unprintable(v: Value) {
    match v
    case Obj(fields) => exists j :: 0 <= j < |fields| && fields[j].0 == TO_STRING_KEY
    case Arr(items) => exists i :: 0 <= i < |items| && Unprintable(items[i])
    case _ => false
  }

  /** String(v): the text, or the message of the TypeError it throws. */
  function ToText(v: Value): (r: Result<string, string>)
    ensures r.Err? <==> Unprintable(v)
    ensures r.Err? ==> r.error == TO_PRIMITIVE_ERROR
    ensures v.Str? ==> r == Ok(v.s)
  {
    match v
    case Undefined => Ok("undefined")
    case Null => Ok("null")
    case Bool(b) => Ok(if b then "true" else "false")
    case Num(d) => Ok(DecToText(d))
    case Str(s) => Ok(s)
    case Arr(items) =>
      if exists i :: 0 <= i < |items| && Unprintable(items[i]) then Err(TO_PRIMITIVE_ERROR)
      else
        Ok(Join(seq(|items|, i requires 0 <= i < |items| =>
          if items[i].Null? || items[i].Undefined? then "" else ToText(items[i]).value)))
    case Obj(fields) =>
      if exists j :: 0 <= j < |fields| && fields[j].0 == TO_STRING_KEY then Err(TO_PRIMITIVE_ERROR)
      else Ok("[object Object]")
  }

  /** The number of leading decimal digits of s. */
  function LeadingDigits(s: string): (k: nat)
    ensures k <= |s| && AllDigits(s[..k])
    ensures k == |s| || !IsDigit(s[k])
  {
    if s == [] || !IsDigit(s[0]) then 0
    else
      var k := 1 + LeadingDigits(s[1..]);
      assert s[..k] == [s[0]] + s[1..][..k - 1];
      k
  }

  /** The digit value of c in bases up to 36, or -1 when c is not a digit. */
  function DigitOf(c: char): int {
    if '0' <= c <= '9' then c as int - '0' as int
    else if 'a' <= c <= 'z' then c as int - 'a' as int + 10
    else if 'A' <= c <= 'Z' then c as int - 'A' as int + 10
    else -1
  }

  predicate AllRadixDigits(s: string, base: nat) {
    forall i :: 0 <= i < |s| ==> 0 <= DigitOf(s[i]) < base
  }

  function RadixValue(s: string, base: nat): nat
    requires AllRadixDigits(s, base)
  {
    if s == [] then 0 else RadixValue(s[..|s| - 1], base) * base + DigitOf(s[|s| - 1])
  }

  /** An optional exponent part: "" is exponent 0, otherwise e or E, an
      optional sign and at least one digit. */
  function ParseExponent(s: string): Option<int> {
    if s == [] then Some(0)
    else if s[0] != 'e' && s[0] != 'E' then None
    else
      var rest := s[1..];
      var neg := |rest| > 0 && rest[0] == '-';
      var digits := if |rest| > 0 && (rest[0] == '+' || rest[0] == '-') then rest[1..] else rest;
      if digits == [] || !AllDigits(digits) then None
      else
        var magnitude: int := DigitsValue(digits);
        Some(if neg then -magnitude else magnitude)
  }

  /** m / 10^k scaled by 10^e. */
  function Shift(m: nat, k: nat, e: int): Dec {
    if e >= k then Dec(Scaled(m, e - k), 0) else Dec(m, k - e)
  }

  /** An unsigned decimal literal: digits, an optional fraction, an optional
      exponent, with at least one digit before or after the point. */
  function ParseUnsignedDecimal(u: string): Option<Dec> {
    var i := LeadingDigits(u);
    var intPart := u[..i];
    var rest := u[i..];
    var hasPoint := |rest| > 0 && rest[0] == '.';
    var afterPoint := if hasPoint then rest[1..] else "";
    var j := LeadingDigits(afterPoint);
    var frac := afterPoint[..j];
    var tail := if hasPoint then afterPoint[j..] else rest;
    if intPart == [] && frac == [] then None
    else
      match ParseExponent(tail)
      case None => None
      case Some(e) => Some(Shift(DigitsValue(intPart + frac), |frac|, e))
  }

  /** A decimal literal with an optional sign. */
  function ParseDecimal(t: string): Option<Dec> {
    if |t| > 0 && (t[0] == '+' || t[0] == '-') then
      match ParseUnsignedDecimal(t[1..])
      case None => None
      case Some(d) => Some(if t[0] == '-' then Dec(-d.mantissa, d.scale) else d)
    else ParseUnsignedDecimal(t)
  }

  /** The base of a 0x, 0o or 0b prefix, or 0 when t has none. */
  function RadixPrefix(t: string): nat {
    if |t| < 2 || t[0] != '0' then 0
    else if t[1] == 'x' || t[1] == 'X' then 16
    else if t[1] == 'o' || t[1] == 'O' then 8
    else if t[1] == 'b' || t[1] == 'B' then 2
    else 0
  }

  /** Number(s) for a string s: surrounding whitespace is ignored, the empty
      string is 0, "Infinity" with an optional sign is infinite, 0x, 0o and 0b
      prefixes give hexadecimal, octal and binary integers, and anything that
      is not a decimal literal is NaN. */
  function StrToNumber(s: string): (r: Number)
    ensures Trim(s) == "" ==> r == Finite(Dec(0, 0))
    ensures s != [] && AllDigits(s) ==> r == Finite(Dec(DigitsValue(s), 0))
  {
    if s != [] && AllDigits(s) then
      TrimOfDigits(s);
      LiteralToNumberOfDigits(s);
      LiteralToNumber(Trim(s))
    else LiteralToNumber(Trim(s))
  }

  /** Number() of an already trimmed string. */
  function LiteralToNumber(t: string): Number {
    if t == "" then Finite(Dec(0, 0))
    else if t == "Infinity" || t == "+Infinity" then Infinity(false)
    else if t == "-Infinity" then Infinity(true)
    else if RadixPrefix(t) != 0 then RadixLiteral(t[2..], RadixPrefix(t))
    else
      match ParseDecimal(t)
      case None => NaN
      case Some(d) => Finite(d)
  }

  /** The digits after a 0x, 0o or 0b prefix. */
  function RadixLiteral(digits: string, base: nat): Number {
    if digits != [] && AllRadixDigits(digits, base) then Finite(Dec(RadixValue(digits, base), 0)) else NaN
  }

  /** Number(v): the number, or the message of the TypeError it throws.
      Arrays and objects convert through their String(). */
  function ToNumber(v: Value): (r: Result<Number, string>)
    ensures r.Err? <==> Unprintable(v)
    ensures r.Err? ==> r.error == TO_PRIMITIVE_ERROR
    ensures v.Str? ==> r == Ok(StrToNumber(v.s))
  {
    match v
    case Undefined => Ok(NaN)
    case Null => Ok(Finite(Dec(0, 0)))
    case Bool(b) => Ok(Finite(Dec(if b then 1 else 0, 0)))
    case Num(d) => Ok(Finite(d))
    case Str(s) => Ok(StrToNumber(s))
    case Arr(_) => if ToText(v).Err? then Err(ToText(v).error) else Ok(StrToNumber(ToText(v).value))
    case Obj(_) => if ToText(v).Err? then Err(ToText(v).error) else Ok(StrToNumber(ToText(v).value))
  }

  /** Number() of an object without its own "toString" is NaN: its String()
      is "[object Object]", which is no numeric literal. */
  lemma ObjectIsNaN(fields: seq<(string, Value)>)
    requires !Unprintable(Obj(fields))
    ensures ToNumber(Obj(fields)) == Ok(NaN)
  {
    var t := ToText(Obj(fields)).value;
    assert t == "[object Object]";
    assert |t| == 15 && t[0] == '[' && t[14] == ']';
    BracketIsNaN(t);
  }

  /** A trimmed string that starts with "[" is no numeric literal. */
  lemma BracketIsNaN(t: string)
    requires |t| > 0 && t[0] == '[' && !IsJsSpace(t[|t| - 1])
    ensures StrToNumber(t) == NaN
  {
    TrimOfTrimmed(t);
    assert t != "Infinity" && t != "+Infinity" && t != "-Infinity" by {
      assert "Infinity"[0] == 'I' && "+Infinity"[0] == '+' && "-Infinity"[0] == '-';
    }
    assert LeadingDigits(t) == 0;
    assert ParseDecimal(t) == None;
  }

  lemma LeadingDigitsOfDigits(s: string)
    requires AllDigits(s)
    ensures LeadingDigits(s) == |s|
  {
    if s != [] {
      LeadingDigitsOfDigits(s[1..]);
    }
  }

  /** A string of digits is an unsigned decimal literal with that value. */
  lemma ParseUnsignedDecimalOfDigits(t: string)
    requires t != [] && AllDigits(t)
    ensures ParseUnsignedDecimal(t) == Some(Dec(DigitsValue(t), 0))
  {
    LeadingDigitsOfDigits(t);
    assert t[..|t|] == t && t[|t|..] == [];
    assert t + [] == t;
  }

  lemma TrimOfDigits(t: string)
    requires t != [] && AllDigits(t)
    ensures Trim(t) == t
  {
    assert Trimmed(t) by {
      assert IsDigit(t[0]) && IsDigit(t[|t| - 1]);
    }
    TrimOfTrimmed(t);
  }

  lemma LiteralToNumberOfDigits(t: string)
    requires t != [] && AllDigits(t)
    ensures LiteralToNumber(t) == Finite(Dec(DigitsValue(t), 0))
  {
    assert t != "Infinity" && t != "+Infinity" && t != "-Infinity" by {
      assert IsDigit(t[0]);
      assert "Infinity"[0] == 'I' && "+Infinity"[0] == '+' && "-Infinity"[0] == '-';
    }
    assert RadixPrefix(t) == 0 by {
      if |t| >= 2 { assert IsDigit(t[1]); }
    }
    assert ParseDecimal(t) == ParseUnsignedDecimal(t) by {
      assert IsDigit(t[0]);
    }
    ParseUnsignedDecimalOfDigits(t);
  }

  /** The decimal numeral of n reads back as n: Number("3") is 3. */
  lemma StrToNumberOfNatToString(n: nat)
    ensures StrToNumber(NatToString(n)) == Finite(Dec(n, 0))
  {
    DigitsValueOfNatToString(n);
  }

  /** Object property lookup: the value of the first entry with that key,
      or Undefined when there is none (LookupFirst). */
  function Lookup(fields: seq<(string, Value)>, key: string): (r: Value)
    ensures (forall j :: 0 <= j < |fields| ==> fields[j].0 != key) ==> r == Undefined
  {
    if fields == [] then Undefined
    else if fields[0].0 == key then fields[0].1
    else
      assert forall j :: 1 <= j < |fields| ==> fields[j] == fields[1..][j - 1];
      Lookup(fields[1..], key)
  }

  /** The entry found is the first one with that key. */
  lemma {:induction false} LookupFirst(fields: seq<(string, Value)>, key: string, j: nat)
    requires j < |fields| && fields[j].0 == key
    requires forall i :: 0 <= i < j ==> fields[i].0 != key
    ensures Lookup(fields, key) == fields[j].1
  {
    if j > 0 {
      assert fields[0].0 != key;
      assert fields[1..][j - 1] == fields[j];
      LookupFirst(fields[1..], key, j - 1);
    }
  }
}
