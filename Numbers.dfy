/**
  Python's `int(s)` on a string argument in base 10 (what `/setmute`
  applies to its first word) and `str(n)`, its inverse on integers.
  Only ASCII digits are modelled.
*/
module Numbers {
  import opened Wrappers
  import opened Text

  predicate IsDigit(c: char) {
    '0' <= c <= '9'
  }

  function DigitValue(c: char): (d: nat)
    requires IsDigit(c)
    ensures d < 10
  {
    c as int - '0' as int
  }

  function DigitChar(d: nat): (c: char)
    requires d < 10
    ensures IsDigit(c) && DigitValue(c) == d
  {
    ('0' as int + d) as char
  }

  predicate AllDigits(d: string) {
    forall i :: 0 <= i < |d| ==> IsDigit(d[i])
  }

  /** The digits of a base-10 literal as `int()` accepts them: decimal digits,
      with single underscores allowed between two digits (PEP 515). */
  predicate IsDigitGroup(d: string) {
    && d != []
    && IsDigit(d[0])
    && IsDigit(d[|d| - 1])
    && (forall i :: 0 <= i < |d| ==> IsDigit(d[i]) || d[i] == '_')
    && (forall i :: 0 <= i < |d| - 1 ==> d[i] == '_' ==> d[i + 1] != '_')
  }

  /** The digits of `d` with the underscores taken out, in order. */
  function DropUnderscores(d: string): (r: string)
    requires forall i :: 0 <= i < |d| ==> IsDigit(d[i]) || d[i] == '_'
    ensures AllDigits(r) && |r| <= |d|
    ensures AllDigits(d) ==> r == d
  {
    if d == [] then []
    else (if d[0] == '_' then [] else [d[0]]) + DropUnderscores(d[1..])
  }

  /** The number a string of decimal digits denotes, most significant first. */
  function ValueOf(d: string): nat
    requires AllDigits(d)
  {
    if d == [] then 0 else ValueOf(d[..|d| - 1]) * 10 + DigitValue(d[|d| - 1])
  }

  /** `int(s)`: surrounding white space is ignored, an optional sign may
      precede the digits; anything else is a ValueError, here None. The
      white space skipped is that of `strip()`, which also counts the
      separators 0x1C-0x1F; `int()` itself refuses those, but a word
      `/setmute` receives never holds them, since `split()` separates on
      them. */
  function ParseInt(s: string): (r: Option<int>)
    ensures r.Some? ==> Strip(s) != []
  {
    var t := Strip(s);
    if t != [] && (t[0] == '-' || t[0] == '+') then
      var body := t[1..];
      if IsDigitGroup(body) then
        var n := ValueOf(DropUnderscores(body));
        Some(if t[0] == '-' then -(n as int) else n)
      else None
    else if IsDigitGroup(t) then Some(ValueOf(DropUnderscores(t)))
    else None
  }

  /** `str(n)` for a natural number: its decimal digits without leading zeros. */
  function DecimalString(n: nat): (r: string)
    ensures r != [] && AllDigits(r)
  {
    if n < 10 then [DigitChar(n)] else DecimalString(n / 10) + [DigitChar(n % 10)]
  }

  lemma {:induction false} ValueOfDecimal(n: nat)
    ensures ValueOf(DecimalString(n)) == n
  {
    if n >= 10 {
      var d := DecimalString(n);
      assert d[..|d| - 1] == DecimalString(n / 10);
      ValueOfDecimal(n / 10);
    }
  }

  /** `int()` reads back what `str()` writes. */
  lemma ParseDecimal(n: nat)
    ensures ParseInt(DecimalString(n)) == Some(n)
  {
    var d := DecimalString(n);
    ValueOfDecimal(n);
    StripUnpadded(d);
    assert IsDigitGroup(d);
  }

  /** `int()` reads back a minus sign followed by what `str()` writes. */
  lemma ParseNegativeDecimal(n: nat)
    ensures ParseInt("-" + DecimalString(n)) == Some(-(n as int))
  {
    var d := DecimalString(n);
    ValueOfDecimal(n);
    var m := "-" + d;
    StripUnpadded(m);
    assert m[1..] == d;
    assert IsDigitGroup(d);
  }

  /** A word holding a character that is neither white space, a digit, a
      sign nor an underscore is never a number. */
  lemma ParseRejectsOtherCharacters(s: string, i: int)
    requires 0 <= i < |s|
    requires !IsSpace(s[i]) && !IsDigit(s[i]) && s[i] !in "+-_"
    ensures ParseInt(s) == None
  {
    var t := Strip(s);
    var k := |s| - |TrimStart(s)|;
    StripSpec(s);
    assert k <= i < k + |t|;
    var j := i - k;
    assert t[j] == s[i];
    if t[0] == '-' || t[0] == '+' {
      assert t[1..][j - 1] == t[j];
    }
  }
}
