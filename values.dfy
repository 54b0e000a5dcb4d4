/** Values the bot handles: a decoded JSON document, the exceptions the
    script raises (as tags), and the text Python's `str()` gives a JSON
    scalar when it is interpolated into an f-string. */
module Values {

  /** A decoded JSON value, as `response.json()` hands it to the script.
      Objects become Python dicts, arrays Python lists; numbers are integers only. */
  datatype Json =
    | JNull
    | JBool(b: bool)
    | JInt(i: int)
    | JStr(s: string)
    | JArr(items: seq<Json>)
    | JObj(fields: map<string, Json>)

  /** The exceptions that can leave the script's helpers, by kind. */
  datatype Error =
    | TypeErr          // TypeError
    | KeyErr           // KeyError
    | HttpErr(code: int)
    | NetErr           // requests.RequestException
    | UnboundErr       // UnboundLocalError on a name never assigned
    | DecodeErr        // the body is not JSON
    | TokenNotExists   // TokenNotExistsError

  datatype Result<+T> = Ok(value: T) | Err(error: Error)

  /** A value that may be absent: Python's `None` or a value. */
  datatype Option<+T> = None | Some(value: T)

  /** A call that returns nothing or raises. */
  datatype Outcome = Pass | Fail(error: Error)

  /** Python can use a value as a dict key only when it is hashable:
      lists and dicts are not. */
  predicate Hashable(v: Json)
  {
    !v.JArr? && !v.JObj?
  }

  predicate IsDigit(c: char)
  {
    '0' <= c <= '9'
  }

  predicate AllDigits(s: string)
  {
    forall i :: 0 <= i < |s| ==> IsDigit(s[i])
  }

  function DigitChar(d: nat): (c: char)
    requires d < 10
    ensures IsDigit(c) && c as int - '0' as int == d
  {
    ('0' as int + d) as char
  }

  /** Digits as Python prints a number: at least one, and no leading zero
      unless the number is zero itself. */
  predicate Canonical(s: string)
  {
    |s| >= 1 && AllDigits(s) && (s[0] == '0' ==> |s| == 1)
  }

  /** The decimal digits of `n`, most significant first, without leading zeros. */
  function Digits(n: nat): (s: string)
    ensures Canonical(s)
    ensures s[0] == '0' ==> s == "0" && n == 0
    decreases n
  {
    if n < 10 then [DigitChar(n)] else Digits(n / 10) + [DigitChar(n % 10)]
  }

  /** The number a string of decimal digits denotes: the inverse of `Digits`. */
  function DigitsValue(s: string): nat
    requires AllDigits(s)
  {
    if s == [] then 0
    else DigitsValue(s[..|s| - 1]) * 10 + (s[|s| - 1] as int - '0' as int)
  }

  lemma {:induction false} DigitsRoundTrip(n: nat)
    ensures DigitsValue(Digits(n)) == n
    decreases n
  {
    if n >= 10 {
      var d := Digits(n / 10);
      assert Digits(n) == d + [DigitChar(n % 10)];
      assert (d + [DigitChar(n % 10)])[..|d|] == d;
      DigitsRoundTrip(n / 10);
    }
  }

  /** The other direction: a canonical digit string is the one `Digits` gives
      for its value, so each number has exactly one canonical text. */
  lemma {:induction false} DigitsCanonical(s: string)
    requires Canonical(s)
    ensures Digits(DigitsValue(s)) == s
    decreases |s|
  {
    var last := s[|s| - 1];
    var d := last as int - '0' as int;
    if |s| == 1 {
      assert DigitsValue(s) == DigitsValue([]) * 10 + d;
      assert [DigitChar(d)] == s;
    } else {
      var p := s[..|s| - 1];
      assert p[0] == s[0] && s[0] != '0';
      assert AllDigits(p) by {
        forall i | 0 <= i < |p| ensures IsDigit(p[i]) { assert p[i] == s[i]; }
      }
      DigitsCanonical(p);
      var n := DigitsValue(s);
      assert n == DigitsValue(p) * 10 + d;
      assert DigitsValue(p) != 0;
      assert n / 10 == DigitsValue(p) && n % 10 == d;
      assert Digits(n) == p + [DigitChar(d)];
      assert s == p + [last];
    }
  }

  /** `str(n)` for a Python int: a minus sign for negatives, then the digits,
      with no leading zero. */
  function DecimalString(n: int): (s: string)
    ensures n >= 0 ==> Canonical(s) && DigitsValue(s) == n
    ensures n < 0 ==>
      |s| >= 2 && s[0] == '-' && s[1] != '0' && Canonical(s[1..]) && DigitsValue(s[1..]) == -n
  {
    DigitsRoundTrip(if n >= 0 then n else -n);
    if n >= 0 then Digits(n)
    else
      var d := Digits(-n);
      assert ("-" + d)[1..] == d;
      "-" + d
  }

  /** The text an f-string inserts for a JSON value. Exact for strings,
      integers, booleans and null; a list or dict is rendered as a fixed
      placeholder (see README, "Left out"). */
  function Str(v: Json): (s: string)
    ensures v.JStr? ==> s == v.s
    ensures v.JInt? && v.i >= 0 ==> Canonical(s) && DigitsValue(s) == v.i
    ensures v.JInt? && v.i < 0 ==> |s| >= 2 && s[0] == '-' && Canonical(s[1..]) && DigitsValue(s[1..]) == -v.i
    ensures v.JBool? ==> s == (if v.b then "True" else "False")
    ensures v.JNull? ==> s == "None"
    ensures s == "" <==> v == JStr("")
  {
    match v
    case JNull => "None"
    case JBool(b) => if b then "True" else "False"
    case JInt(i) => DecimalString(i)
    case JStr(s) => s
    case JArr(_) => "[...]"
    case JObj(_) => "{...}"
  }
}
