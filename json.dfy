/** A decoded JSON message as the worker sees it after json.loads, and the
    Python built-ins the worker applies to its parts: truthiness, `a or b`,
    dict.get, float(), int() and str(). */
module Json {
  import opened Text

  datatype Option<T> = None | Some(value: T)

  function Pow10(n: nat): (r: nat)
    ensures r >= 1
  {
    if n == 0 then 1 else 10 * Pow10(n - 1)
  }

  /** The exact number mantissa / 10^scale. A JSON number with a fraction
      becomes one of these; binary floating point is not modelled. */
  datatype Decimal = Decimal(mantissa: int, scale: nat)

  /** What json.loads returns: None, bool, int, float, str, list or dict. */
  datatype Json =
    | JNull
    | JBool(b: bool)
    | JInt(i: int)
    | JFloat(d: Decimal)
    | JStr(s: string)
    | JList(items: seq<Json>)
    | JDict(fields: map<string, Json>)

  /** Python truthiness: None, False, zero, and empty strings, lists and dicts are false. */
  predicate Truthy(v: Json) {
    match v
    case JNull => false
    case JBool(b) => b
    case JInt(i) => i != 0
    case JFloat(d) => d.mantissa != 0
    case JStr(s) => s != []
    case JList(items) => items != []
    case JDict(fields) => fields != map[]
  }

  /** Python's `a or b`: the first operand when it is truthy, else the second. */
  function Or(a: Json, b: Json): Json {
    if Truthy(a) then a else b
  }

  /** Python's dict.get(key): None when the key is absent. */
  function Get(fields: map<string, Json>, key: string): Json {
    if key in fields then fields[key] else JNull
  }

  /** An optional leading sign: whether it was '-', and the rest. */
  function SplitSign(s: string): (bool, string) {
    if |s| > 0 && (s[0] == '+' || s[0] == '-') then (s[0] == '-', s[1..]) else (false, s)
  }

  /** Position of the first c in s, or |s| when there is none. */
  function Find(s: string, c: char): (k: nat)
    ensures k <= |s|
  {
    if s == [] then 0 else if s[0] == c then 0 else 1 + Find(s[1..], c)
  }

  /** Find gives the first occurrence, or |s| when c does not occur. */
  lemma {:induction false} FindIsFirst(s: string, c: char)
    ensures Find(s, c) < |s| ==> s[Find(s, c)] == c
    ensures forall i :: 0 <= i < Find(s, c) ==> s[i] != c
  {
    if s != [] && s[0] != c {
      FindIsFirst(s[1..], c);
      assert forall i :: 1 <= i < Find(s, c) ==> s[i] == s[1..][i - 1];
    }
  }

  /** int() of an already stripped string: an optional sign and at least one digit. */
  function ParseInteger(s: string): Option<int> {
    var (negative, body) := SplitSign(s);
    if body != [] && AllDigits(body) then
      var magnitude: int := DigitsValue(body);
      Some(if negative then -magnitude else magnitude)
    else None
  }

  /** float() of an already stripped string, for the forms
      [sign] digits [. digits] and [sign] . digits. */
  function ParseDecimal(s: string): Option<Decimal> {
    var (negative, body) := SplitSign(s);
    var point := Find(body, '.');
    var whole := body[..point];
    var fraction := if point < |body| then body[point + 1..] else [];
    if AllDigits(whole) && AllDigits(fraction) && |whole| + |fraction| >= 1 then
      var magnitude: int := DigitsValue(whole + fraction);
      Some(Decimal(if negative then -magnitude else magnitude, |fraction|))
    else None
  }

  lemma {:induction false} DivisionBounds(m: nat, p: nat)
    requires p >= 1
    ensures 0 <= (m / p) * p <= m < (m / p + 1) * p
  {
    var q, r := m / p, m % p;
    assert m == q * p + r && 0 <= q && 0 <= r < p;
    var qp := q * p;
    assert 0 <= qp;
    assert (q + 1) * p == qp + p;
  }

  /** int() of a float: truncation toward zero. */
  function Truncate(d: Decimal): int {
    var p := Pow10(d.scale);
    if d.mantissa >= 0 then d.mantissa / p else -((-d.mantissa) / p)
  }

  /** Truncate rounds toward zero: it is the integer of largest magnitude
      not beyond the value, on the value's own side of zero. */
  lemma {:induction false} TruncatesTowardZero(d: Decimal)
    ensures d.mantissa >= 0 ==> 0 <= Truncate(d) * Pow10(d.scale) <= d.mantissa < (Truncate(d) + 1) * Pow10(d.scale)
    ensures d.mantissa < 0 ==> (Truncate(d) - 1) * Pow10(d.scale) < d.mantissa <= Truncate(d) * Pow10(d.scale) <= 0
  {
    var p := Pow10(d.scale);
    if d.mantissa >= 0 {
      DivisionBounds(d.mantissa, p);
    } else {
      var q := (-d.mantissa) / p;
      DivisionBounds(-d.mantissa, p);
      assert (-q - 1) * p == -((q + 1) * p) && (-q) * p == -(q * p);
    }
  }

  /** Python's float(v): None when float() raises (TypeError for None, lists
      and dicts; ValueError for a string that is not a number). */
  function ToFloat(v: Json): Option<Decimal> {
    match v
    case JNull => None
    case JBool(b) => Some(Decimal(if b then 1 else 0, 0))
    case JInt(i) => Some(Decimal(i, 0))
    case JFloat(d) => Some(d)
    case JStr(s) => ParseDecimal(Strip(s))
    case JList(_) => None
    case JDict(_) => None
  }

  /** Python's int(v): None when int() raises. */
  function ToInt(v: Json): Option<int> {
    match v
    case JNull => None
    case JBool(b) => Some(if b then 1 else 0)
    case JInt(i) => Some(i)
    case JFloat(d) => Some(Truncate(d))
    case JStr(s) => ParseInteger(Strip(s))
    case JList(_) => None
    case JDict(_) => None
  }

  /** Python's str(v) as it appears in the f-strings that build keys. Exact
      for None, booleans, integers and strings; floats, lists and dicts get
      a fixed stand-in text. */
  function PyStr(v: Json): string {
    match v
    case JNull => "None"
    case JBool(b) => if b then "True" else "False"
    case JInt(i) => IntToString(i)
    case JFloat(_) => "<float>"
    case JStr(s) => s
    case JList(_) => "<list>"
    case JDict(_) => "<dict>"
  }

  /** str(i) starts and ends with a non-blank character, so the strip()
      inside int() and float() keeps it as it is. */
  lemma {:induction false} IntTextIsStripped(i: int)
    ensures ToInt(JStr(IntToString(i))) == ParseInteger(IntToString(i))
    ensures ToFloat(JStr(IntToString(i))) == ParseDecimal(IntToString(i))
  {
    var s := IntToString(i);
    assert IsDigit(s[|s| - 1]);
    assert s[0] == '-' || IsDigit(s[0]);
    StripKeepsTrimmed(s);
  }

  /** The unsigned digits of str(i), and whether str(i) carries a minus sign. */
  lemma {:induction false} IntToStringShape(i: int) returns (digits: string)
    ensures digits == NatToString(if i < 0 then -i else i)
    ensures SplitSign(IntToString(i)) == (i < 0, digits)
    ensures digits != [] && AllDigits(digits) && DigitsValue(digits) == (if i < 0 then -i else i)
    ensures Find(digits, '.') == |digits|
  {
    digits := NatToString(if i < 0 then -i else i);
    NatToStringValue(if i < 0 then -i else i);
    if i < 0 {
      assert ("-" + digits)[1..] == digits;
    } else {
      assert IsDigit(digits[0]);
    }
    FindIsFirst(digits, '.');
  }

  /** int(str(i)) == i: the integer parser reads back what str() writes. */
  lemma {:induction false} IntRoundTrip(i: int)
    ensures ToInt(JStr(IntToString(i))) == Some(i)
  {
    IntTextIsStripped(i);
    var digits := IntToStringShape(i);
  }

  /** float(str(i)) == i for every integer i. */
  lemma {:induction false} FloatOfIntText(i: int)
    ensures ToFloat(JStr(IntToString(i))) == Some(Decimal(i, 0))
  {
    IntTextIsStripped(i);
    var digits := IntToStringShape(i);
    DecimalOfDigits(i < 0, digits);
  }

  /** A sign and a run of digits without a point parse as that signed integer. */
  lemma {:induction false} DecimalOfDigits(negative: bool, digits: string)
    requires digits != [] && AllDigits(digits) && Find(digits, '.') == |digits|
    ensures var magnitude: int := DigitsValue(digits);
      forall s :: SplitSign(s) == (negative, digits) ==>
        ParseDecimal(s) == Some(Decimal(if negative then -magnitude else magnitude, 0))
  {
    assert digits[..|digits|] == digits;
    assert digits + [] == digits;
  }

  lemma {:induction false} StripExample()
    ensures ToFloat(JStr(" -12.50 ")) == ParseDecimal("-12.50")
  {
    var t := " -12.50 ";
    assert IsSpace(t[0]) && t[1..] == "-12.50 ";
    assert !IsSpace("-12.50 "[0]);
    assert TrimLeft(t) == "-12.50 ";
    var u := "-12.50 ";
    assert IsSpace(u[6]) && u[..6] == "-12.50";
    assert !IsSpace("-12.50"[5]);
    assert TrimRight(u) == "-12.50";
  }

  lemma {:induction false} DigitsExample()
    ensures AllDigits("1250") && DigitsValue("1250") == 1250
  {
    assert "1"[..0] == [];
    assert DigitsValue("1") == 1;
    assert "12"[..1] == "1";
    assert DigitsValue("12") == 12;
    assert "125"[..2] == "12";
    assert DigitsValue("125") == 125;
    assert "1250"[..3] == "125";
  }

  lemma {:induction false} ParseExample()
    ensures ParseDecimal("-12.50") == Some(Decimal(-1250, 2))
  {
    assert SplitSign("-12.50") == (true, "12.50");
    assert Find("12.50", '.') == 2 by {
      assert "12.50"[1..] == "2.50" && "2.50"[1..] == ".50";
    }
    assert "12.50"[..2] == "12" && "12.50"[3..] == "50";
    assert "12" + "50" == "1250";
    DigitsExample();
  }

  /** float(" -12.50 ") is -1250 / 10^2: surrounding blanks are stripped. */
  lemma {:induction false} FractionalText()
    ensures ToFloat(JStr(" -12.50 ")) == Some(Decimal(-1250, 2))
  {
    StripExample();
    ParseExample();
  }

  /** float("n/a") raises, and so does int("12.5"). */
  lemma {:induction false} NonNumericText()
    ensures ToFloat(JStr("n/a")) == None
    ensures ToInt(JStr("12.5")) == None
  {
    StripKeepsTrimmed("n/a");
    assert !IsDigit("n/a"[0]);
    StripKeepsTrimmed("12.5");
    assert !IsDigit("12.5"[2]);
  }
}
