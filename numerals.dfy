/** Decimal digits: formatting integers as JavaScript prints them, `parseInt(s, 10)`,
    and the `name.split('-')[0]` the store applies to revision file names. */
module Numerals {

  import opened Results

  predicate IsDigit(c: char)
  {
    '0' <= c <= '9'
  }

  predicate AllDigits(s: string)
  {
    forall i :: 0 <= i < |s| ==> IsDigit(s[i])
  }

  /** Length of the run of decimal digits at the start of `s`. */
  function DigitRun(s: string): (n: nat)
    ensures n <= |s|
    ensures AllDigits(s[..n])
    ensures n < |s| ==> !IsDigit(s[n])
  {
    if s != [] && IsDigit(s[0]) then 1 + DigitRun(s[1..]) else 0
  }

  function DigitValue(c: char): nat
    requires IsDigit(c)
  {
    c as int - '0' as int
  }

  function DigitChar(k: nat): (c: char)
    requires k < 10
    ensures IsDigit(c) && DigitValue(c) == k
  {
    ('0' as int + k) as char
  }

  /** The number a string of decimal digits denotes (leading zeros allowed). */
  function DigitsValue(d: string): nat
    requires AllDigits(d)
    decreases |d|
  {
    if d == [] then 0 else DigitsValue(d[..|d| - 1]) * 10 + DigitValue(d[|d| - 1])
  }

  /** Decimal text of a natural number, as `String(n)` prints it; reading it back gives `n`. */
  function NatToString(n: nat): (s: string)
    ensures s != [] && AllDigits(s)
    ensures DigitsValue(s) == n
  {
    if n < 10 then [DigitChar(n)]
    else
      var p := NatToString(n / 10);
      var s := p + [DigitChar(n % 10)];
      assert s[..|s| - 1] == p;
      s
  }

  /** Decimal text of an integer, with a leading '-' when negative. */
  function IntToString(i: int): string
  {
    if i < 0 then "-" + NatToString(-i) else NatToString(i)
  }

  /** The characters `parseInt` skips before the number: ECMAScript white space
      (tab, vertical tab, form feed, space, no-break space, byte-order mark and the
      other space separators) and line terminators. */
  predicate IsJsWhitespace(c: char)
  {
    var k := c as int;
    k == 0x09 || k == 0x0A || k == 0x0B || k == 0x0C || k == 0x0D || k == 0x20 ||
    k == 0xA0 || k == 0x1680 || (0x2000 <= k <= 0x200A) || k == 0x2028 || k == 0x2029 ||
    k == 0x202F || k == 0x205F || k == 0x3000 || k == 0xFEFF
  }

  /** `s` without its leading white space. */
  function TrimStart(s: string): (t: string)
    ensures |t| <= |s| && t == s[|s| - |t|..]
    ensures forall i :: 0 <= i < |s| - |t| ==> IsJsWhitespace(s[i])
    ensures t != [] ==> !IsJsWhitespace(t[0])
  {
    if s != [] && IsJsWhitespace(s[0]) then TrimStart(s[1..]) else s
  }

  /** `parseInt(s, 10)`: skip white space, read an optional sign and the longest run of
      digits that follows; `None` stands for NaN, when there is no digit to read. */
  function ParseInt(s: string): (r: Option<int>)
    ensures s != [] && IsDigit(s[0]) ==> r == Some(DigitsValue(s[..DigitRun(s)]))
    ensures r.Some? && r.value < 0 ==> '-' in s
  {
    var t := TrimStart(s);
    var negative := t != [] && t[0] == '-';
    assert negative ==> t[0] == s[|s| - |t|];
    var u := if t != [] && (t[0] == '-' || t[0] == '+') then t[1..] else t;
    var n := DigitRun(u);
    if n == 0 then None
    else if negative then Some(-(DigitsValue(u[..n]) as int))
    else Some(DigitsValue(u[..n]))
  }

  /** `parseInt` reads a digit string followed by anything that is not a digit as the
      number the digits denote. */
  lemma {:induction false} ParseIntOfDigits(d: string, rest: string)
    requires d != [] && AllDigits(d)
    requires rest == [] || !IsDigit(rest[0])
    ensures ParseInt(d + rest) == Some(DigitsValue(d))
  {
    var s := d + rest;
    assert !IsJsWhitespace(s[0]);
    assert TrimStart(s) == s;
    DigitRunOfDigits(d, rest);
    assert s[..|d|] == d;
  }

  /** The digit run of a digit string followed by a non-digit is that digit string. */
  lemma {:induction false} DigitRunOfDigits(d: string, rest: string)
    requires AllDigits(d)
    requires rest == [] || !IsDigit(rest[0])
    ensures DigitRun(d + rest) == |d|
    decreases |d|
  {
    if d != [] {
      assert (d + rest)[1..] == d[1..] + rest;
      DigitRunOfDigits(d[1..], rest);
    }
  }

  /** Printing a natural number and parsing it back gives the number. */
  lemma ParseIntOfNatToString(n: nat)
    ensures ParseInt(NatToString(n)) == Some(n)
  {
    ParseIntOfDigits(NatToString(n), "");
    assert NatToString(n) + "" == NatToString(n);
  }

  /** `s.split(sep)[0]`: the text before the first `sep`, or all of `s` when there is none. */
  function FirstField(s: string, sep: char): (p: string)
    ensures p <= s
    ensures sep !in p
    ensures |p| < |s| ==> s[|p|] == sep
  {
    if s == [] || s[0] == sep then [] else [s[0]] + FirstField(s[1..], sep)
  }

  /** A digit string ahead of the first separator stays at the head of the first field. */
  lemma {:induction false} FirstFieldAfterDigits(d: string, sep: char, rest: string)
    requires AllDigits(d) && !IsDigit(sep)
    ensures FirstField(d + rest, sep) == d + FirstField(rest, sep)
    decreases |d|
  {
    if d != [] {
      assert (d + rest)[1..] == d[1..] + rest;
      assert IsDigit(d[0]) && d == [d[0]] + d[1..];
      FirstFieldAfterDigits(d[1..], sep, rest);
    } else {
      assert d + rest == rest;
    }
  }

  /** `parseInt(name.split(sep)[0])` of a name that starts with a digit reads the name's
      leading run of digits. */
  lemma LeadingDigitsRead(name: string, sep: char)
    requires !IsDigit(sep)
    ensures name != [] && IsDigit(name[0]) ==>
              ParseInt(FirstField(name, sep)) == Some(DigitsValue(name[..DigitRun(name)]))
  {
    if name != [] && IsDigit(name[0]) {
      var n := DigitRun(name);
      var d, rest := name[..n], name[n..];
      assert name == d + rest;
      FirstFieldAfterDigits(d, sep, rest);
      var tail := FirstField(rest, sep);
      assert tail == [] || tail[0] == rest[0];
      DigitRunOfDigits(d, tail);
      assert (d + tail)[..n] == d;
    }
  }

  /** The first field of a digit string followed by the separator is the digit string. */
  lemma {:induction false} FirstFieldOfDigits(d: string, sep: char, rest: string)
    requires AllDigits(d) && !IsDigit(sep)
    ensures FirstField(d + [sep] + rest, sep) == d
    decreases |d|
  {
    if d != [] {
      assert (d + [sep] + rest)[1..] == d[1..] + [sep] + rest;
      FirstFieldOfDigits(d[1..], sep, rest);
    }
  }
}
