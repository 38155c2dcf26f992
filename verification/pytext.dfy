/** The text conversions the key scheme relies on: Python's `str()` of an int,
    `int()` of a string, `str.split('_')[-1]`, and `str()` of a scalar as used by
    `"_last_{}".format(...)`. Only ASCII digits and ASCII whitespace are
    modelled. */
module PyText {
  import opened PyValues

  predicate IsDigit(c: char) {
    '0' <= c <= '9'
  }

  /** The ASCII characters Python's `int()` skips around a number. */
  predicate IsSpace(c: char) {
    c == ' ' || (9 <= c as int <= 13) || (28 <= c as int <= 31)
  }

  predicate AllDigits(s: string) {
    |s| > 0 && forall i :: 0 <= i < |s| ==> IsDigit(s[i])
  }

  function DigitChar(d: nat): (c: char)
    requires d < 10
    ensures IsDigit(c) && c as int - '0' as int == d
  {
    ('0' as int + d) as char
  }

  /** The value of a run of decimal digits, most significant first. */
  function DigitsValue(s: string): nat
    requires forall i :: 0 <= i < |s| ==> IsDigit(s[i])
  {
    if |s| == 0 then 0
    else DigitsValue(s[..|s| - 1]) * 10 + DigitValue(s[|s| - 1])
  }

  function DigitValue(c: char): nat
    requires IsDigit(c)
  {
    c as int - '0' as int
  }

  /** `str(n)` for a non-negative int. */
  function NatToString(n: nat): (r: string)
    ensures AllDigits(r)
    decreases n
  {
    if n < 10 then [DigitChar(n)] else NatToString(n / 10) + [DigitChar(n % 10)]
  }

  /** `str(n)` for any int. */
  function IntToString(n: int): (r: string)
    ensures |r| > 0
    ensures forall i :: 0 <= i < |r| ==> r[i] != '_' && !IsSpace(r[i])
  {
    if n < 0 then "-" + NatToString(-n) else NatToString(n)
  }

  function StripLeft(s: string): (r: string)
    ensures |r| <= |s|
    ensures |r| > 0 ==> !IsSpace(r[0])
  {
    if |s| > 0 && IsSpace(s[0]) then StripLeft(s[1..]) else s
  }

  function StripRight(s: string): (r: string)
    ensures |r| <= |s|
    ensures |r| > 0 ==> !IsSpace(r[|r| - 1])
  {
    if |s| > 0 && IsSpace(s[|s| - 1]) then StripRight(s[..|s| - 1]) else s
  }

  /** Python's `int(s)` for a string: surrounding whitespace, an optional sign,
      then one or more decimal digits; anything else raises `ValueError`,
      modelled as `None`. */
  function ParseInt(s: string): Option<int> {
    var t := StripRight(StripLeft(s));
    if |t| > 0 && (t[0] == '-' || t[0] == '+') then
      if AllDigits(t[1..]) then
        var magnitude: int := DigitsValue(t[1..]);
        Some(if t[0] == '-' then -magnitude else magnitude)
      else None
    else if AllDigits(t) then Some(DigitsValue(t))
    else None
  }

  /** `s.split('_')[-1]`: the text after the last underscore, or all of `s`
      when it has none. */
  function LastSegment(s: string): string {
    if |s| == 0 then s
    else if s[|s| - 1] == '_' then []
    else LastSegment(s[..|s| - 1]) + [s[|s| - 1]]
  }

  /** `int()` of a plain run of digits is its decimal value, and of the
      empty string an error. */
  lemma ParseIntOfDigits(s: string)
    ensures ParseInt([]).None?
    ensures AllDigits(s) ==> ParseInt(s) == Some(DigitsValue(s))
  {
    if AllDigits(s) {
      assert StripLeft(s) == s && StripRight(s) == s;
    }
  }

  /** `int()` of a minus sign followed by digits is the negated value. */
  lemma ParseIntOfNegative(s: string)
    requires |s| > 1 && s[0] == '-' && AllDigits(s[1..])
    ensures ParseInt(s) == Some(0 - DigitsValue(s[1..]))
  {
    assert IsDigit(s[1..][|s| - 2]);
    assert StripLeft(s) == s && StripRight(s) == s;
  }

  /** The last segment is a suffix of `s` without underscores, preceded in
      `s` by an underscore unless it is all of `s`. */
  lemma {:induction false} LastSegmentShape(s: string)
    ensures var r := LastSegment(s);
      && |r| <= |s| && r == s[|s| - |r|..]
      && (forall i :: 0 <= i < |r| ==> r[i] != '_')
      && (|r| < |s| ==> s[|s| - |r| - 1] == '_')
    decreases |s|
  {
    if |s| > 0 && s[|s| - 1] != '_' {
      var p := s[..|s| - 1];
      LastSegmentShape(p);
      var r := LastSegment(s);
      assert r == LastSegment(p) + [s[|s| - 1]];
      assert r == s[|s| - |r|..];
    }
  }

  /** `str(d)` for a scalar, as `"{}".format(d)` renders it. */
  function Show(d: Datum): string {
    match d
    case DNone => "None"
    case DBool(b) => if b then "True" else "False"
    case DInt(i) => IntToString(i)
    case DStr(s) => s
  }

  lemma {:induction false} DigitsValueOfNatToString(n: nat)
    ensures DigitsValue(NatToString(n)) == n
    decreases n
  {
    if n >= 10 {
      var s := NatToString(n);
      assert s[..|s| - 1] == NatToString(n / 10);
      DigitsValueOfNatToString(n / 10);
    }
  }

  lemma StripOfUnspaced(s: string)
    requires forall i :: 0 <= i < |s| ==> !IsSpace(s[i])
    ensures StripRight(StripLeft(s)) == s
  {
  }

  /** `int(str(n)) == n`: reading back what `str` wrote gives the number. */
  lemma ParseIntOfIntToString(n: int)
    ensures ParseInt(IntToString(n)) == Some(n)
  {
    var t := IntToString(n);
    StripOfUnspaced(t);
    assert StripRight(StripLeft(t)) == t;
    if n < 0 {
      var body := NatToString(-n);
      assert t == "-" + body;
      assert t[0] == '-' && t[1..] == body;
      DigitsValueOfNatToString(-n);
    } else {
      assert t == NatToString(n);
      assert IsDigit(t[0]);
      DigitsValueOfNatToString(n);
    }
  }

  /** The segment after the last underscore of `p + t`, where `p` ends in an
      underscore and `t` has none, is `t`. */
  lemma {:induction false} LastSegmentAfterUnderscore(p: string, t: string)
    requires |p| > 0 && p[|p| - 1] == '_'
    requires forall i :: 0 <= i < |t| ==> t[i] != '_'
    ensures LastSegment(p + t) == t
    decreases |t|
  {
    if |t| == 0 {
      assert p + t == p;
    } else {
      assert (p + t)[..|p + t| - 1] == p + t[..|t| - 1];
      LastSegmentAfterUnderscore(p, t[..|t| - 1]);
      assert t == t[..|t| - 1] + [t[|t| - 1]];
    }
  }
}
