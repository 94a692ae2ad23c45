/**
 * JSON documents as Python's `json` module hands them to the application,
 * and Python's built-in `int(v)` on such values (the conversion behind
 * `clamp_score` and `normalize_settings`).
 */
module Json {
  import opened Wrappers
  import opened PyStr

  /** A decoded JSON value. Numbers with a fraction or exponent are Python
      floats, modelled as exact finite reals. */
  datatype Json =
    | JNull
    | JBool(b: bool)
    | JInt(i: int)
    | JNum(r: real)
    | JStr(s: string)
    | JArr(items: seq<Json>)
    | JObj(fields: map<string, Json>)

  /** A JSON object, such as a roster record or a request body. */
  type Record = map<string, Json>

  /** Python's `int(x)` for a float: truncation toward zero. */
  function Trunc(r: real): (n: int)
    ensures r >= 0.0 ==> n as real <= r < n as real + 1.0
    ensures r < 0.0 ==> n as real - 1.0 < r <= n as real
  {
    if r >= 0.0 then r.Floor else -((-r).Floor)
  }

  /** The whitespace `int()` skips around a number. Non-ASCII whitespace is first
      turned into spaces and then C's `isspace` decides, so tab to carriage return,
      space and the non-ASCII `str.isspace()` characters count, while the ASCII
      separators U+001C to U+001F (whitespace to `str.strip()`) do not. */
  predicate IsIntSpace(c: char) {
    ('\t' <= c <= '\r') || c == ' ' || (c as int >= 0x7F && IsSpace(c))
  }

  /** `s` without its leading `int()` whitespace. */
  function TrimIntSpaceStart(s: string): (r: string)
    ensures |r| <= |s| && r == s[|s| - |r|..]
    ensures r == [] || !IsIntSpace(r[0])
  {
    if |s| > 0 && IsIntSpace(s[0]) then TrimIntSpaceStart(s[1..]) else s
  }

  /** `s` without its trailing `int()` whitespace. */
  function TrimIntSpaceEnd(s: string): (r: string)
    ensures |r| <= |s| && r == s[..|r|]
    ensures r == [] || !IsIntSpace(r[|r| - 1])
  {
    if |s| > 0 && IsIntSpace(s[|s| - 1]) then TrimIntSpaceEnd(s[..|s| - 1]) else s
  }

  /** `s` without its leading and trailing `int()` whitespace. */
  function TrimIntSpace(s: string): string {
    TrimIntSpaceEnd(TrimIntSpaceStart(s))
  }

  /** The digits of a base-10 literal as `int()` reads them: decimal digits of any
      script, with single underscores allowed between two digits. */
  predicate IsNumeral(b: string)
    ensures IsNumeral(b) ==> forall j :: 0 <= j < |b| ==> IsDigit(b[j]) || b[j] == '_'
  {
    |b| > 0 && IsDigit(b[0]) && IsNumeralFrom(b, 1)
  }

  /** What may follow a digit in a numeral, from index `i` on: more digits, each
      optionally preceded by one underscore. */
  predicate IsNumeralFrom(b: string, i: nat)
    ensures IsNumeralFrom(b, i) ==> forall j :: i <= j < |b| ==> IsDigit(b[j]) || b[j] == '_'
    decreases |b| - i
  {
    || i >= |b|
    || (IsDigit(b[i]) && IsNumeralFrom(b, i + 1))
    || (b[i] == '_' && i + 1 < |b| && IsDigit(b[i + 1]) && IsNumeralFrom(b, i + 2))
  }

  /** The number of digits among the first `k` characters of `b`. */
  function DigitCount(b: string, k: nat): (r: nat)
    requires k <= |b|
    ensures r <= k
  {
    if k == 0 then 0 else DigitCount(b, k - 1) + (if IsDigit(b[k - 1]) then 1 else 0)
  }

  /** The value of the digits among the first `k` characters of `b`, anything else
      (in a numeral, the underscores) skipped. */
  function NumeralDigitsValue(b: string, k: nat): nat
    requires k <= |b|
  {
    if k == 0 then 0
    else if IsDigit(b[k - 1]) then 10 * NumeralDigitsValue(b, k - 1) + DigitValue(b[k - 1])
    else NumeralDigitsValue(b, k - 1)
  }

  /** `sys.get_int_max_str_digits()` by default: `int()` of a string with more digits
      raises ValueError (Python 3.11 and later). */
  const MaxStrDigits := 4300

  /** The value of a numeral of at most `MaxStrDigits` digits. */
  function NumeralValue(body: string): (r: Option<nat>)
    ensures r.Some? ==> IsNumeral(body) && IsDigit(body[0])
  {
    if IsNumeral(body) && DigitCount(body, |body|) <= MaxStrDigits then Some(NumeralDigitsValue(body, |body|))
    else None
  }

  /** The optional sign of a trimmed string (`true` for `-`) and what follows it. */
  function SignAndBody(t: string): (r: (bool, string))
    ensures r.1 == t || (t != [] && r.1 == t[1..])
  {
    (|t| > 0 && t[0] == '-', t[SignLength(t)..])
  }

  /** The length of the optional `+` or `-` that starts a trimmed string. */
  function SignLength(t: string): (k: nat)
    ensures k <= |t|
    ensures k == 1 <==> t != [] && (t[0] == '-' || t[0] == '+')
  {
    if |t| > 0 && (t[0] == '-' || t[0] == '+') then 1 else 0
  }

  /** Python's `int(s)` for a string: optional surrounding whitespace, an optional
      sign, then a numeral of at most `MaxStrDigits` digits; anything else raises
      ValueError. */
  function ParseInt(s: string): (r: Option<int>)
    ensures r.Some? ==> exists j :: 0 <= j < |s| && IsDigit(s[j])
  {
    var t := TrimIntSpace(s);
    var (neg, body) := SignAndBody(t);
    match NumeralValue(body)
    case None => None
    case Some(n) =>
      var l := TrimIntSpaceStart(s);
      assert body[0] == l[|t| - |body|] == s[|s| - |l| + |t| - |body|];
      Some(if neg then 0 - n else n)
  }

  /** `int(str(n)) == n` for every integer with at most `MaxStrDigits` digits. */
  lemma ParseIntOfIntToString(n: int)
    requires |NatToString(if n >= 0 then n else -n)| <= MaxStrDigits
    ensures ParseInt(IntToString(n)) == Some(n)
  {
    var m: nat := if n >= 0 then n else -n;
    IntToStringIsTrimmed(n);
    NumeralValueOfNatToString(m);
    ParseIntOfNumeral(IntToString(n), n < 0, NatToString(m), m);
  }

  /** `str(n)` has no surrounding whitespace, and its sign is `-` exactly when `n < 0`. */
  lemma IntToStringIsTrimmed(n: int)
    ensures TrimIntSpace(IntToString(n)) == IntToString(n)
    ensures SignAndBody(IntToString(n)) == (n < 0, NatToString(if n >= 0 then n else -n))
  {
    var s := IntToString(n);
    assert s[0] == '-' || '0' <= s[0] <= '9';
    assert '0' <= s[|s| - 1] <= '9';
    TrimIntSpaceKeeps(s);
  }

  /** A decimal rendering is a numeral of its own value. */
  lemma NumeralValueOfNatToString(m: nat)
    requires |NatToString(m)| <= MaxStrDigits
    ensures NumeralValue(NatToString(m)) == Some(m)
  {
    DigitsAreNumeral(NatToString(m));
    DigitsOfNatToString(m);
  }

  /** A string that neither starts nor ends with `int()` whitespace is kept by the trim. */
  lemma TrimIntSpaceKeeps(s: string)
    requires s == [] || (!IsIntSpace(s[0]) && !IsIntSpace(s[|s| - 1]))
    ensures TrimIntSpace(s) == s
  {
  }

  /** A string of digits is a numeral whose digits are all of it. */
  lemma DigitsAreNumeral(ds: string)
    requires forall j :: 0 <= j < |ds| ==> IsDigit(ds[j])
    ensures ds != [] ==> IsNumeral(ds)
    ensures DigitCount(ds, |ds|) == |ds|
    ensures NumeralDigitsValue(ds, |ds|) == DigitsValue(ds)
  {
    DigitsAreNumeralFrom(ds, 1);
    DigitsPrefixValue(ds, |ds|);
    assert ds[..|ds|] == ds;
  }

  /** Every suffix of a string of digits may follow a digit in a numeral. */
  lemma {:induction false} DigitsAreNumeralFrom(ds: string, i: nat)
    requires forall j :: 0 <= j < |ds| ==> IsDigit(ds[j])
    ensures IsNumeralFrom(ds, i)
    decreases |ds| - i
  {
    if i < |ds| {
      DigitsAreNumeralFrom(ds, i + 1);
    }
  }

  /** The first `k` characters of a string of digits count `k` digits and have
      their decimal value. */
  lemma {:induction false} DigitsPrefixValue(ds: string, k: nat)
    requires k <= |ds|
    requires forall j :: 0 <= j < |ds| ==> IsDigit(ds[j])
    ensures DigitCount(ds, k) == k
    ensures NumeralDigitsValue(ds, k) == DigitsValue(ds[..k])
  {
    if k > 0 {
      DigitsPrefixValue(ds, k - 1);
      assert ds[..k][..k - 1] == ds[..k - 1];
    }
  }

  /** No decimal digit is whitespace to `int()` or a sign. */
  lemma DigitNotIntSpace(c: char)
    requires IsDigit(c)
    ensures !IsIntSpace(c) && c != '-' && c != '+'
  {
    assert DigitZero(0x1680).None? && DigitZero(0x2028).None? && DigitZero(0x2029).None?;
    assert DigitZero(0x202F).None? && DigitZero(0x205F).None? && DigitZero(0x3000).None?;
    assert forall x :: 0x2000 <= x <= 0x200A ==> DigitZero(x).None?;
  }

  /** `int()` of a non-empty string of decimal digits: their value, or a
      ValueError (`None`) beyond 4300 digits. */
  lemma ParseIntOfDigits(ds: string)
    requires ds != [] && forall j :: 0 <= j < |ds| ==> IsDigit(ds[j])
    ensures |ds| <= MaxStrDigits ==> ParseInt(ds) == Some(DigitsValue(ds))
    ensures |ds| > MaxStrDigits ==> ParseInt(ds) == None
  {
    DigitNotIntSpace(ds[0]);
    DigitNotIntSpace(ds[|ds| - 1]);
    TrimIntSpaceKeeps(ds);
    assert SignLength(ds) == 0;
    assert SignAndBody(ds) == (false, ds);
    DigitsAreNumeral(ds);
    if |ds| <= MaxStrDigits {
      ParseIntOfNumeral(ds, false, ds, DigitsValue(ds));
    } else {
      ParseIntOfNonNumeral(ds, ds);
    }
  }

  /** `ParseInt` of a string whose trimmed body is a numeral of value `v`. */
  lemma ParseIntOfNumeral(s: string, neg: bool, body: string, v: nat)
    requires SignAndBody(TrimIntSpace(s)) == (neg, body)
    requires NumeralValue(body) == Some(v)
    ensures ParseInt(s) == Some(if neg then -(v as int) else v)
  {
  }

  /** `ParseInt` of a string whose trimmed body is not a numeral. */
  lemma ParseIntOfNonNumeral(s: string, body: string)
    requires SignAndBody(TrimIntSpace(s)).1 == body
    requires !IsNumeral(body) || DigitCount(body, |body|) > MaxStrDigits
    ensures ParseInt(s) == None
  {
  }

  /** `int()` accepts single underscores between digits ... */
  lemma ParseIntUnderscores()
    ensures ParseInt("1_000") == Some(1000)
  {
    var u := "1_000";
    TrimIntSpaceKeeps(u);
    assert IsNumeral(u);
    assert DigitCount(u, 5) == 4 && NumeralDigitsValue(u, 5) == 1000 by {
      assert NumeralDigitsValue(u, 2) == 1;
      assert NumeralDigitsValue(u, 4) == 100;
    }
    ParseIntOfNumeral("1_000", false, "1_000", 1000);
  }

  /** ... but not a doubled, leading or trailing one. */
  lemma ParseIntBadUnderscores()
    ensures ParseInt("1__0") == None && ParseInt("_1") == None && ParseInt("1_") == None
  {
    TrimIntSpaceKeeps("1__0");
    ParseIntOfNonNumeral("1__0", "1__0");
    TrimIntSpaceKeeps("_1");
    ParseIntOfNonNumeral("_1", "_1");
    TrimIntSpaceKeeps("1_");
    ParseIntOfNonNumeral("1_", "1_");
  }

  /** `int()` reads the digits of other scripts: full-width ... */
  lemma ParseIntFullWidth()
    ensures ParseInt("\U{FF11}\U{FF10}\U{FF10}") == Some(100)
  {
    var w := "\U{FF11}\U{FF10}\U{FF10}";
    TrimIntSpaceKeeps(w);
    NumeralValueOfFullWidth100();
    ParseIntOfNumeral(w, false, w, 100);
  }

  /** The numeral step of `ParseIntFullWidth`. */
  lemma NumeralValueOfFullWidth100()
    ensures NumeralValue("\U{FF11}\U{FF10}\U{FF10}") == Some(100)
  {
    var w := "\U{FF11}\U{FF10}\U{FF10}";
    assert DigitValue(w[0]) == 1 && DigitValue(w[1]) == 0;
    DigitsAreNumeral(w);
    assert DigitsValue(w[..1]) == 1;
    assert DigitsValue(w[..2]) == 10;
  }

  /** ... and Arabic-Indic. */
  lemma ParseIntArabicIndic()
    ensures ParseInt("\U{0663}") == Some(3)
  {
    var a := "\U{0663}";
    TrimIntSpaceKeeps(a);
    assert NumeralValue(a) == Some(3) by {
      assert DigitValue(a[0]) == 3;
      DigitsAreNumeral(a);
    }
    ParseIntOfNumeral(a, false, a, 3);
  }

  /** `int()` skips surrounding whitespace ... */
  lemma ParseIntSpaces()
    ensures ParseInt(" -42\n") == Some(-42)
  {
    TrimIntSpaceOfSpaced();
    assert NumeralValue("42") == Some(42) by {
      NumeralValueOf42();
    }
    assert SignAndBody("-42") == (true, "42");
    ParseIntOfNumeral(" -42\n", true, "42", 42);
  }

  /** The numeral step of `ParseIntSpaces`. */
  lemma NumeralValueOf42()
    ensures NumeralValue("42") == Some(42)
  {
    var d := "42";
    DigitsAreNumeral(d);
    assert DigitsValue(d[..1]) == 4;
  }

  /** The trimming step of `ParseIntSpaces`, one end at a time. */
  lemma TrimIntSpaceOfSpaced()
    ensures TrimIntSpace(" -42\n") == "-42"
  {
    var s := " -42\n";
    assert s[1..] == "-42\n";
    assert TrimIntSpaceStart(s[1..]) == s[1..];
    assert "-42\n"[..3] == "-42";
    assert TrimIntSpaceEnd("-42") == "-42";
  }

  /** ... but not the separator U+001C, which `str.isspace()` counts as whitespace. */
  lemma ParseIntSeparatorNotSpace()
    ensures ParseInt("\U{1C}1") == None
  {
    var u := "\U{1C}1";
    TrimIntSpaceKeeps(u);
    assert !IsDigit(u[0]);
    ParseIntOfNonNumeral(u, u);
  }

  /** Python's `int(v)`: `None` stands for the TypeError or ValueError it raises. */
  function PyInt(v: Json): (r: Option<int>)
    ensures v.JInt? ==> r == Some(v.i)
    ensures (v.JNull? || v.JArr? || v.JObj?) ==> r == None
  {
    match v
    case JBool(b) => Some(if b then 1 else 0)
    case JInt(i) => Some(i)
    case JNum(x) => Some(Trunc(x))
    case JStr(s) => ParseInt(s)
    case _ => None
  }

  /** Python's `v == n` for a JSON value and an int: numbers compare by value
      (`True == 1`, `3.0 == 3`), every other kind is unequal. */
  predicate PyEqInt(v: Json, n: int) {
    match v
    case JBool(b) => (if b then 1 else 0) == n
    case JInt(i) => i == n
    case JNum(x) => x == n as real
    case _ => false
  }

  /** An integral number is converted by `int` to the value it equals. */
  lemma PyIntOfEqual(v: Json, n: int)
    requires PyEqInt(v, n)
    ensures PyInt(v) == Some(n)
  {
    if v.JNum? {
      assert v.r == n as real;
      assert v.r.Floor == n;
    }
  }

  /** Python truthiness of a JSON value (`if v:`). */
  predicate Truthy(v: Json) {
    match v
    case JNull => false
    case JBool(b) => b
    case JInt(i) => i != 0
    case JNum(x) => x != 0.0
    case JStr(s) => s != []
    case JArr(xs) => xs != []
    case JObj(m) => m != map[]
  }

  /** `d.get(key, default)`. */
  function Get(fields: map<string, Json>, key: string, default: Json): Json {
    if key in fields then fields[key] else default
  }
}
