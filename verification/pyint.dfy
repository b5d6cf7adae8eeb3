/** Python's conversions between `int` and its decimal text: `str(n)` (as an
    f-string formats a number) and `int(text)` for base 10 (the port fields). */
module PyInt {
  import opened Wrappers

  predicate IsDigit(c: char) {
    '0' <= c <= '9'
  }

  function DigitChar(d: int): (c: char)
    requires 0 <= d < 10
    ensures IsDigit(c) && c as int - '0' as int == d
  {
    "0123456789"[d]
  }

  /** The decimal digits of `n`, most significant first, no leading zero. */
  function Digits(n: nat): (r: string)
    ensures |r| >= 1
    ensures forall i :: 0 <= i < |r| ==> IsDigit(r[i])
    ensures |r| > 1 ==> r[0] != '0'
    decreases n
  {
    if n < 10 then [DigitChar(n)] else Digits(n / 10) + [DigitChar(n % 10)]
  }

  /** `str(n)`. */
  function Decimal(n: int): (r: string)
    ensures |r| >= 1 && IsDigit(r[|r| - 1])
    ensures r[0] == '-' <==> n < 0
  {
    if n < 0 then "-" + Digits(-n) else Digits(n)
  }

  /** The characters `int()` skips around the number. Below 128 these are
      only tab, line feed, vertical tab, form feed, carriage return and space:
      the separators U+001C to U+001F, for which `str.isspace()` holds, are
      not skipped and make `int()` raise. Above 127 they are the characters
      `str.isspace()` holds for. */
  predicate IsSpace(c: char) {
    var n := c as int;
    || 9 <= n <= 13 || n == 32 || n == 0x85 || n == 0xA0 || n == 0x1680
    || 0x2000 <= n <= 0x200A || n == 0x2028 || n == 0x2029 || n == 0x202F
    || n == 0x205F || n == 0x3000
  }

  /** `s` without its leading white space. */
  function TrimStart(s: string): (r: string)
    ensures |r| <= |s| && r == s[|s| - |r|..]
    ensures forall i :: 0 <= i < |s| - |r| ==> IsSpace(s[i])
    ensures r != [] ==> !IsSpace(r[0])
  {
    if s != [] && IsSpace(s[0]) then TrimStart(s[1..]) else s
  }

  /** `s` without its trailing white space. */
  function TrimEnd(s: string): (r: string)
    ensures |r| <= |s| && r == s[..|r|]
    ensures forall i :: |r| <= i < |s| ==> IsSpace(s[i])
    ensures r != [] ==> !IsSpace(r[|r| - 1])
  {
    if s != [] && IsSpace(s[|s| - 1]) then TrimEnd(s[..|s| - 1]) else s
  }

  /** Digits with single underscores between them, as base-10 `int()` accepts. */
  predicate DigitGroups(s: string) {
    && |s| >= 1
    && IsDigit(s[0]) && IsDigit(s[|s| - 1])
    && (forall i :: 0 <= i < |s| ==> IsDigit(s[i]) || s[i] == '_')
    && (forall i :: 0 <= i < |s| - 1 ==> s[i] == '_' ==> s[i + 1] != '_')
  }

  /** The number the digits of `s` spell, underscores ignored. */
  function DigitsValue(s: string): nat {
    if s == [] then 0
    else if IsDigit(s[|s| - 1]) then 10 * DigitsValue(s[..|s| - 1]) + (s[|s| - 1] as int - '0' as int)
    else DigitsValue(s[..|s| - 1])
  }

  /** `int(text)` in base 10: `None` is the `ValueError`. Surrounding white
      space is skipped, one sign is allowed, then digit groups. */
  function ParseInt(text: string): (r: Option<int>)
    ensures r.Some? ==> exists i :: 0 <= i < |text| && IsDigit(text[i])
  {
    var t := TrimEnd(TrimStart(text));
    if t == [] then None
    else
      var body := if t[0] == '-' || t[0] == '+' then t[1..] else t;
      if !DigitGroups(body) then None
      else
        assert IsDigit(body[0]);
        var v: int := DigitsValue(body);
        Some(if t[0] == '-' then -v else v)
  }

  lemma {:induction false} DigitsValueOfDigits(n: nat)
    ensures DigitsValue(Digits(n)) == n
    decreases n
  {
    if n >= 10 {
      var d := Digits(n);
      DigitsValueOfDigits(n / 10);
      assert d[..|d| - 1] == Digits(n / 10);
      assert d[|d| - 1] == DigitChar(n % 10);
    }
  }

  /** Text that starts with one of the separators U+001C to U+001F is not
      an integer, whatever follows. */
  lemma ParseIntRejectsSeparator(c: char, rest: string)
    requires 0x1C <= c as int <= 0x1F
    ensures ParseInt([c] + rest) == None
  {
    var s := [c] + rest;
    assert !IsSpace(s[0]);
    assert TrimStart(s) == s;
    var t := TrimEnd(s);
    assert t != [];
    assert t[0] == c;
    assert !DigitGroups(t);
  }

  /** `int("\x1c80")` raises. */
  lemma ParseIntRejectsFileSeparator()
    ensures ParseInt(['\U{1C}', '8', '0']) == None
  {
    ParseIntRejectsSeparator('\U{1C}', "80");
    assert ['\U{1C}', '8', '0'] == ['\U{1C}'] + "80";
  }

  /** `int(str(n)) == n` for every integer `n`. */
  lemma ParseIntDecimal(n: int)
    ensures ParseInt(Decimal(n)) == Some(n)
  {
    var d := Decimal(n);
    var m := if n < 0 then -n else n;
    DecimalUntrimmed(n);
    DecimalBody(n);
    DigitsValueOfDigits(m);
  }

  /** `str(n)` has no white space to skip. */
  lemma DecimalUntrimmed(n: int)
    ensures TrimEnd(TrimStart(Decimal(n))) == Decimal(n)
  {
    var d := Decimal(n);
    assert d[0] == '-' || IsDigit(d[0]);
    assert TrimStart(d) == d;
  }

  /** Without its sign, `str(n)` is the digits of `|n|`. */
  lemma DecimalBody(n: int)
    ensures var d := Decimal(n);
      (if d[0] == '-' || d[0] == '+' then d[1..] else d) == Digits(if n < 0 then -n else n)
  {
    var d := Decimal(n);
    if n < 0 {
      assert d[1..] == Digits(-n);
    }
  }
}
