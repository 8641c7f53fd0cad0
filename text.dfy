/** Character classes of the statement pattern and of the emitted commands,
    greedy scanning, and rendering/reading of non-negative decimal numbers. */
module Text {
  import opened Outcomes

  /** `[a-z0-9_]`: a host name character. */
  predicate IsHostChar(c: char) {
    ('a' <= c <= 'z') || ('0' <= c <= '9') || c == '_'
  }

  /** `\d`, restricted to the ASCII digits. */
  predicate IsDigit(c: char) {
    '0' <= c <= '9'
  }

  /** `[A-Z]`: a domain letter. */
  predicate IsUpper(c: char) {
    'A' <= c <= 'Z'
  }

  /** `\s` on a Python `str` pattern: the characters for which `str.isspace` holds. */
  predicate IsSpace(c: char) {
    var u := c as int;
    || (0x09 <= u <= 0x0D) || (0x1C <= u <= 0x20)
    || u == 0x85 || u == 0xA0 || u == 0x1680
    || (0x2000 <= u <= 0x200A)
    || u == 0x2028 || u == 0x2029 || u == 0x202F || u == 0x205F || u == 0x3000
  }

  datatype CharClass = HostChars | Digits | Spaces | DottedDigits

  predicate InClass(c: char, k: CharClass) {
    match k
    case HostChars => IsHostChar(c)
    case Digits => IsDigit(c)
    case Spaces => IsSpace(c)
    case DottedDigits => IsDigit(c) || c == '.'
  }

  predicate AllIn(s: string, k: CharClass) {
    forall i :: 0 <= i < |s| ==> InClass(s[i], k)
  }

  /** A greedy run of class `k` cannot be continued into `rest`. */
  predicate StopsAt(rest: string, k: CharClass) {
    rest == [] || !InClass(rest[0], k)
  }

  lemma {:induction false} AllInConcat(s: string, t: string, k: CharClass)
    requires AllIn(s, k) && AllIn(t, k)
    ensures AllIn(s + t, k)
  {
    forall i | 0 <= i < |s + t| ensures InClass((s + t)[i], k) {
      if i >= |s| {
        assert (s + t)[i] == t[i - |s|];
      }
    }
  }

  /** Splits `s` into its longest prefix of class-`k` characters and the rest,
      which is how a greedy `[...]*` consumes input. */
  function TakeWhile(s: string, k: CharClass): (r: (string, string))
    ensures r.0 + r.1 == s
    ensures AllIn(r.0, k) && StopsAt(r.1, k)
  {
    if s != [] && InClass(s[0], k) then
      var (run, rest) := TakeWhile(s[1..], k);
      assert AllIn([s[0]], k);
      AllInConcat([s[0]], run, k);
      assert [s[0]] + (run + rest) == s;
      ([s[0]] + run, rest)
    else
      ([], s)
  }

  /** A run that cannot be extended is exactly what TakeWhile returns. */
  lemma {:induction false} TakeWhileExact(run: string, rest: string, k: CharClass)
    requires AllIn(run, k) && StopsAt(rest, k)
    ensures TakeWhile(run + rest, k) == (run, rest)
  {
    if run == [] {
      assert run + rest == rest;
    } else {
      assert (run + rest)[1..] == run[1..] + rest;
      TakeWhileExact(run[1..], rest, k);
      assert [run[0]] + run[1..] == run;
    }
  }

  /** `Some(rest)` when `s` starts with `lit`. */
  function Expect(s: string, lit: string): (r: Option<string>)
    ensures r.Some? <==> lit <= s
    ensures r.Some? ==> s == lit + r.value
  {
    if lit <= s then Some(s[|lit|..]) else None
  }

  lemma ExpectLiteral(lit: string, rest: string)
    ensures Expect(lit + rest, lit) == Some(rest)
  {
    assert lit <= lit + rest;
    assert (lit + rest)[|lit|..] == rest;
  }

  function DigitChar(d: nat): (c: char)
    requires d < 10
    ensures IsDigit(c)
  {
    ('0' as int + d) as char
  }

  function DigitValue(c: char): (d: nat)
    requires IsDigit(c)
    ensures d < 10 && DigitChar(d) == c
  {
    c as int - '0' as int
  }

  /** Python's `str(n)` for a non-negative integer: no sign, no leading zeros. */
  function DecimalString(n: nat): (s: string)
    ensures |s| > 0 && AllIn(s, Digits)
    ensures |s| > 1 ==> s[0] != '0'
  {
    if n < 10 then [DigitChar(n)] else DecimalString(n / 10) + [DigitChar(n % 10)]
  }

  /** The value of a string of decimal digits. */
  function ParseDecimal(s: string): nat
    requires AllIn(s, Digits)
  {
    if s == [] then 0 else 10 * ParseDecimal(s[..|s| - 1]) + DigitValue(s[|s| - 1])
  }

  lemma {:induction false} DecimalRoundTrip(n: nat)
    ensures ParseDecimal(DecimalString(n)) == n
  {
    var s := DecimalString(n);
    if n >= 10 {
      assert s[..|s| - 1] == DecimalString(n / 10);
      DecimalRoundTrip(n / 10);
    } else {
      assert s[..|s| - 1] == [];
    }
  }

  /** A maximal non-empty digit run and its value, followed by what remains. */
  function TakeNumber(s: string): (r: Option<(nat, string)>)
  {
    var (digits, rest) := TakeWhile(s, Digits);
    if digits == [] then None else Some((ParseDecimal(digits), rest))
  }

  lemma TakeNumberDecimal(n: nat, rest: string)
    requires StopsAt(rest, Digits)
    ensures TakeNumber(DecimalString(n) + rest) == Some((n, rest))
  {
    TakeWhileExact(DecimalString(n), rest, Digits);
    DecimalRoundTrip(n);
  }
}
