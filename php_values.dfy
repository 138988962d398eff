/**
 * PHP values as the client sees them after JSON decoding, PHP truthiness,
 * PHP's integer-to-string conversion and the `is_numeric` test on strings.
 * Floats are not part of this model: every number is an integer.
 */
module PhpValues {

  /** A PHP value: `null`, a boolean, an integer, a string, a `stdClass`
      object (attribute name to value) or an array used as a list. */
  datatype Value =
    | Null
    | Bool(b: bool)
    | Int(i: int)
    | Str(s: string)
    | Obj(fields: map<string, Value>)
    | Arr(items: seq<Value>)

  /** The exceptions the client raises (and the transport failure it passes on). */
  datatype Error =
    | InvalidKeyType                 // encodeURLParamValue: not numeric, string or empty object
    | NotConvertibleToString         // implode() met an object
    | InvalidLookupType(code: int)   // fetchView: unknown key lookup type
    | InvalidLookupValue             // fetchResultBodyFromViewByKey: not numeric and not a string
    | MissingBaseDocument            // composeSingleDocFromLinkedDocs: no row with a null value
    | SlotCollision(slot: string)    // an existing attribute has the wrong shape for a relation slot
    | DivisionByZero                 // fetchViewWithKeysMatch with a maximum key count of 0
    | Transport(status: int)         // failure reported by the HTTP collaborator

  datatype Result<T> = Ok(value: T) | Err(error: Error)

  datatype Option<T> = None | Some(value: T)

  /** PHP's conversion to bool, as used by `if ($key)`. */
  function Truthy(v: Value): (r: bool)
    ensures !r <==> v in {Null, Bool(false), Int(0), Str(""), Str("0"), Arr([])}
  {
    match v
    case Null => false
    case Bool(b) => b
    case Int(i) => i != 0
    case Str(s) => s != "" && s != "0"
    case Obj(_) => true
    case Arr(items) => items != []
  }

  /** PHP `isset` on an attribute: present and not null. */
  predicate IsSet(m: map<string, Value>, k: string) {
    k in m && !m[k].Null?
  }

  predicate IsDigit(c: char) {
    '0' <= c <= '9'
  }

  predicate AllDigits(s: string) {
    forall i :: 0 <= i < |s| ==> IsDigit(s[i])
  }

  function DigitChar(d: nat): (c: char)
    requires d < 10
    ensures IsDigit(c) && c as int - '0' as int == d
  {
    ('0' as int + d) as char
  }

  /** Decimal digits of a natural number, most significant first. */
  function NatToDecimal(n: nat): (r: string)
    ensures r != [] && AllDigits(r)
    ensures r[0] == '0' ==> n == 0
  {
    if n < 10 then [DigitChar(n)] else NatToDecimal(n / 10) + [DigitChar(n % 10)]
  }

  /** `(string)$i` for a PHP integer. */
  function IntToDecimal(i: int): (r: string)
    ensures r != [] && (r[0] == '-' <==> i < 0)
    ensures i >= 0 ==> AllDigits(r)
  {
    if i < 0 then "-" + NatToDecimal(-i) else NatToDecimal(i)
  }

  /** The value of a string of decimal digits. */
  function DigitsValue(s: string): nat
    requires AllDigits(s)
  {
    if s == [] then 0 else DigitsValue(s[..|s| - 1]) * 10 + (s[|s| - 1] as int - '0' as int)
  }

  lemma {:induction false} DigitsValueOfDecimal(n: nat)
    ensures DigitsValue(NatToDecimal(n)) == n
  {
    if n >= 10 {
      var s := NatToDecimal(n);
      assert s[..|s| - 1] == NatToDecimal(n / 10);
      DigitsValueOfDecimal(n / 10);
    }
  }

  // ---------------------------------------------------------------------------
  // is_numeric on strings (PHP 8), as a scanner: optional leading whitespace,
  // an optional sign, a mantissa of digits with at most one '.' and at least
  // one digit, an optional exponent (`e` or `E`, optional sign, digits), and
  // optional trailing whitespace.

  predicate IsWhitespace(c: char) {
    c == ' ' || c == '\t' || c == '\n' || c == '\r' || c as int == 11 || c as int == 12
  }

  datatype ScanState =
    | Leading      // only whitespace so far
    | Signed       // after the sign
    | IntPart      // digits of the mantissa, no '.' yet
    | DotOnly      // a '.' with no digit before it
    | FracPart     // after the '.', at least one mantissa digit seen
    | ExpMark      // after 'e' or 'E'
    | ExpSigned    // after the exponent's sign
    | ExpDigits    // digits of the exponent
    | Trailing     // whitespace after a complete number
    | Rejected

  /** One step of the scanner; `integerOnly` refuses '.' and exponents. */
  function Step(st: ScanState, c: char, integerOnly: bool): ScanState {
    match st
    case Leading =>
      if IsWhitespace(c) then Leading
      else if c == '+' || c == '-' then Signed
      else if IsDigit(c) then IntPart
      else if c == '.' && !integerOnly then DotOnly
      else Rejected
    case Signed =>
      if IsDigit(c) then IntPart
      else if c == '.' && !integerOnly then DotOnly
      else Rejected
    case IntPart =>
      if IsDigit(c) then IntPart
      else if c == '.' && !integerOnly then FracPart
      else if (c == 'e' || c == 'E') && !integerOnly then ExpMark
      else if IsWhitespace(c) then Trailing
      else Rejected
    case DotOnly => if IsDigit(c) then FracPart else Rejected
    case FracPart =>
      if IsDigit(c) then FracPart
      else if c == 'e' || c == 'E' then ExpMark
      else if IsWhitespace(c) then Trailing
      else Rejected
    case ExpMark =>
      if c == '+' || c == '-' then ExpSigned else if IsDigit(c) then ExpDigits else Rejected
    case ExpSigned => if IsDigit(c) then ExpDigits else Rejected
    case ExpDigits =>
      if IsDigit(c) then ExpDigits else if IsWhitespace(c) then Trailing else Rejected
    case Trailing => if IsWhitespace(c) then Trailing else Rejected
    case Rejected => Rejected
  }

  function Scan(s: string, st: ScanState, integerOnly: bool): ScanState {
    if s == [] then st else Scan(s[1..], Step(st, s[0], integerOnly), integerOnly)
  }

  predicate IsComplete(st: ScanState) {
    st == IntPart || st == FracPart || st == ExpDigits || st == Trailing
  }

  /** The scanner states reached only after a mantissa digit. */
  predicate SeenDigit(st: ScanState) {
    st == IntPart || st == FracPart || st == ExpMark || st == ExpSigned
    || st == ExpDigits || st == Trailing
  }

  /** From a state before any digit, the scanner completes only on input
      that holds a digit. */
  lemma {:induction false} CompleteNeedsDigit(s: string, st: ScanState, integerOnly: bool)
    requires !SeenDigit(st) && IsComplete(Scan(s, st, integerOnly))
    ensures exists i :: 0 <= i < |s| && IsDigit(s[i])
  {
    if s == [] {
      assert false;
    } else if IsDigit(s[0]) {
      assert IsDigit(s[0]);
    } else {
      CompleteNeedsDigit(s[1..], Step(st, s[0], integerOnly), integerOnly);
      var i :| 0 <= i < |s[1..]| && IsDigit(s[1..][i]);
      assert IsDigit(s[i + 1]);
    }
  }

  /** PHP 8 `is_numeric` applied to a string. */
  function IsNumericString(s: string): (r: bool)
    ensures r ==> exists i :: 0 <= i < |s| && IsDigit(s[i])
  {
    if IsComplete(Scan(s, Leading, false)) then CompleteNeedsDigit(s, Leading, false); true
    else false
  }

  /** A numeric string written without '.' or exponent: its value is an integer. */
  predicate IsIntegerString(s: string) {
    IsComplete(Scan(s, Leading, true))
  }

  /** The digit characters of a string, in order. */
  function DigitsOf(s: string): (r: string)
    ensures AllDigits(r)
  {
    if s == [] then [] else (if IsDigit(s[0]) then [s[0]] else []) + DigitsOf(s[1..])
  }

  /** The integer an integer string stands for (PHP `"12" + 0`). */
  function IntegerStringValue(s: string): int
    requires IsIntegerString(s)
  {
    if '-' in s then -(DigitsValue(DigitsOf(s)) as int) else DigitsValue(DigitsOf(s))
  }

  lemma {:induction false} ScanStaysInteger(d: string, integerOnly: bool)
    requires AllDigits(d)
    ensures Scan(d, IntPart, integerOnly) == IntPart
  {
    if d != [] {
      ScanStaysInteger(d[1..], integerOnly);
    }
  }

  lemma {:induction false} DigitsOfDigits(d: string)
    requires AllDigits(d)
    ensures DigitsOf(d) == d
  {
    if d != [] {
      DigitsOfDigits(d[1..]);
    }
  }

  /** An integer string is numeric. */
  lemma {:induction false} IntegerStringIsNumeric(s: string)
    requires IsIntegerString(s)
    ensures IsNumericString(s)
  {
    ScanIntegerAgrees(s, Leading);
  }

  lemma {:induction false} ScanIntegerAgrees(s: string, st: ScanState)
    requires st in {Leading, Signed, IntPart, Trailing, Rejected}
    requires IsComplete(Scan(s, st, true))
    ensures Scan(s, st, false) == Scan(s, st, true)
  {
    if s != [] {
      ScanRejected(s[1..], true);
      ScanIntegerAgrees(s[1..], Step(st, s[0], true));
    }
  }

  lemma {:induction false} ScanRejected(s: string, integerOnly: bool)
    ensures Scan(s, Rejected, integerOnly) == Rejected
  {
    if s != [] {
      ScanRejected(s[1..], integerOnly);
    }
  }

  /** The decimal form of an integer is an integer string with that value:
      the round trip of `(string)$i` and reading the string as a number. */
  lemma DecimalRoundTrip(i: int)
    ensures IsIntegerString(IntToDecimal(i))
    ensures IntegerStringValue(IntToDecimal(i)) == i
  {
    var n: nat := if i < 0 then -i else i;
    var d := NatToDecimal(n);
    var s := IntToDecimal(i);
    ScanStaysInteger(d[1..], true);
    DigitsOfDigits(d);
    DigitsValueOfDecimal(n);
    assert Scan(d, IntPart, true) == IntPart by {
      ScanStaysInteger(d, true);
    }
    if i < 0 {
      assert s[1..] == d;
      assert Step(Leading, s[0], true) == Signed;
      assert Scan(s, Leading, true) == Scan(d, Signed, true);
      assert Scan(d, Signed, true) == Scan(d[1..], IntPart, true);
      assert s[1..][1..] == d[1..];
      assert s[0] == '-' && !IsDigit(s[0]);
      assert DigitsOf(s) == DigitsOf(s[1..]);
    } else {
      assert s == d;
      assert Scan(s, Leading, true) == Scan(d[1..], IntPart, true);
      assert forall j :: 0 <= j < |s| ==> IsDigit(s[j]);
      assert '-' !in s;
    }
  }
}
