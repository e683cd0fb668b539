/** Decimal text for integers: what `format!("{}", n)` writes and what
    `str::parse::<i32>` accepts. */
module Decimal {
  import opened Ints
  import W = Wrappers

  predicate IsDigit(c: char) { '0' <= c <= '9' }

  predicate AllDigits(s: string)
  {
    forall i :: 0 <= i < |s| ==> IsDigit(s[i])
  }

  function DigitValue(c: char): (d: nat)
    requires IsDigit(c)
    ensures d < 10
  {
    c as int - '0' as int
  }

  function DigitChar(d: nat): (c: char)
    requires d < 10
    ensures IsDigit(c) && DigitValue(c) == d
  {
    ('0' as int + d) as char
  }

  /** `format!("{}", n)` for `n >= 0`: the shortest decimal digits. */
  function NatToString(n: nat): (s: string)
    ensures |s| >= 1 && AllDigits(s)
    ensures s[0] == '0' ==> n == 0
  {
    if n < 10 then [DigitChar(n)] else NatToString(n / 10) + [DigitChar(n % 10)]
  }

  /** `format!("{}", x)` for any integer: a minus sign, then the digits of `|x|`. */
  function IntToString(x: int): (s: string)
  {
    if x < 0 then "-" + NatToString(-x) else NatToString(x)
  }

  /** The value of a string of decimal digits, most significant first. */
  function DigitsValue(s: string): nat
    requires AllDigits(s)
  {
    if s == [] then 0 else 10 * DigitsValue(s[..|s| - 1]) + DigitValue(s[|s| - 1])
  }

  /** The digits written for `n` are worth `n`. */
  lemma {:induction false} NatToStringValue(n: nat)
    ensures DigitsValue(NatToString(n)) == n
  {
    if n >= 10 {
      NatToStringValue(n / 10);
      var s := NatToString(n);
      assert s[..|s| - 1] == NatToString(n / 10);
    }
  }

  /** Different numbers are written differently. */
  lemma NatToStringInjective(m: nat, n: nat)
    requires NatToString(m) == NatToString(n)
    ensures m == n
  {
    NatToStringValue(m);
    NatToStringValue(n);
  }

  /** `IntErrorKind`, the reason `ParseIntError` carries. */
  datatype IntErrorKind = Empty | InvalidDigit | PosOverflow | NegOverflow

  /** The outcome of reading digits after the sign. */
  datatype Scanned = Value(v: nat) | BadDigit | TooLarge

  /** The digit loop of `from_str_radix` on magnitudes: each step multiplies
      by ten and adds the digit, and stops as soon as the magnitude passes
      `limit` or a character is not a digit, whichever comes first. */
  function ScanDigits(s: string, acc: nat, limit: nat): (r: Scanned)
    ensures r.Value? && acc <= limit ==> r.v <= limit
  {
    if s == [] then Value(acc)
    else if !IsDigit(s[0]) then BadDigit
    else
      var a := 10 * acc + DigitValue(s[0]);
      if a > limit then TooLarge else ScanDigits(s[1..], a, limit)
  }

  /** The digits after an optional leading `+` or `-`. */
  function Unsigned(s: string): string
  {
    if s != [] && (s[0] == '+' || s[0] == '-') then s[1..] else s
  }

  /** The largest magnitude of the sign `s` starts with. */
  function MagnitudeLimit(s: string): nat
  {
    if s != [] && s[0] == '-' then -I32_MIN else I32_MAX
  }

  /** `s.parse::<i32>()`. An empty string and a lone sign are rejected, and
      the first offending character decides between a bad digit and an
      overflow. */
  function ParseI32(s: string): (r: W.Result<i32, IntErrorKind>)
    ensures r.Ok? ==> s != [] && Unsigned(s) != [] && ScanDigits(Unsigned(s), 0, MagnitudeLimit(s)).Value?
  {
    if s == [] then W.Err(Empty)
    else if Unsigned(s) == [] then W.Err(InvalidDigit)
    else
      var negative := s[0] == '-';
      match ScanDigits(Unsigned(s), 0, MagnitudeLimit(s))
      case Value(v) =>
        var x: i32 := if negative then -(v as int) else v;
        W.Ok(x)
      case BadDigit => W.Err(InvalidDigit)
      case TooLarge => W.Err(if negative then NegOverflow else PosOverflow)
  }

  /** One more character at the end of the digits runs one more step. */
  lemma {:induction false} ScanDigitsSnoc(s: string, c: char, acc: nat, limit: nat)
    ensures ScanDigits(s + [c], acc, limit) ==
            match ScanDigits(s, acc, limit)
            case Value(v) =>
              if !IsDigit(c) then BadDigit
              else if 10 * v + DigitValue(c) > limit then TooLarge
              else Value(10 * v + DigitValue(c))
            case other => other
    decreases |s|
  {
    if s != [] {
      assert (s + [c])[1..] == s[1..] + [c];
      if IsDigit(s[0]) {
        var a := 10 * acc + DigitValue(s[0]);
        if a <= limit {
          ScanDigitsSnoc(s[1..], c, a, limit);
        }
      }
    } else {
      assert [c][1..] == [];
    }
  }

  /** Over digits only, the loop overflows exactly when the whole value
      does: every prefix is worth no more than the whole. */
  lemma {:induction false} ScanAllDigits(s: string, limit: nat)
    requires AllDigits(s)
    ensures ScanDigits(s, 0, limit) == if DigitsValue(s) <= limit then Value(DigitsValue(s)) else TooLarge
    decreases |s|
  {
    if s != [] {
      var p := s[..|s| - 1];
      ScanAllDigits(p, limit);
      assert s == p + [s[|s| - 1]];
      ScanDigitsSnoc(p, s[|s| - 1], 0, limit);
    }
  }

  /** `parse::<i32>` on an optionally signed string of digits: the signed
      value when it fits, an overflow in the direction of the sign otherwise. */
  lemma ParseI32Digits(s: string)
    requires s != [] && Unsigned(s) != [] && AllDigits(Unsigned(s))
    ensures var v := DigitsValue(Unsigned(s));
            var negative := s[0] == '-';
            ParseI32(s) == if v > MagnitudeLimit(s) then W.Err(if negative then NegOverflow else PosOverflow)
                           else W.Ok(if negative then -(v as int) else v)
  {
    ScanAllDigits(Unsigned(s), MagnitudeLimit(s));
  }

  /** `parse::<i32>` reads back what `format!` writes. */
  lemma ParseIntToString(x: int)
    requires InI32(x)
    ensures ParseI32(IntToString(x)) == W.Ok(x)
  {
    var s := IntToString(x);
    var m := if x < 0 then -x else x;
    NatToStringValue(m);
    assert Unsigned(s) == NatToString(m);
    ParseI32Digits(s);
  }

  /** Text with a non-digit before any overflow is `InvalidDigit`. */
  lemma ScanStopsAtNonDigit(s: string, k: nat, limit: nat)
    requires k < |s| && AllDigits(s[..k]) && DigitsValue(s[..k]) <= limit && !IsDigit(s[k])
    ensures ScanDigits(s, 0, limit) == BadDigit
  {
    var p := s[..k];
    ScanAllDigits(p, limit);
    ScanRest(p, s[k..], limit);
    assert s == p + s[k..];
  }

  /** Reading `p + t` is reading `p` and then carrying on with `t`. */
  lemma {:induction false} ScanRest(p: string, t: string, limit: nat)
    requires ScanDigits(p, 0, limit).Value?
    ensures ScanDigits(p + t, 0, limit) == ScanDigits(t, ScanDigits(p, 0, limit).v, limit)
    decreases |t|
  {
    if t != [] {
      var c := t[0];
      ScanDigitsSnoc(p, c, 0, limit);
      assert p + t == (p + [c]) + t[1..];
      var q := ScanDigits(p + [c], 0, limit);
      if q.Value? {
        ScanRest(p + [c], t[1..], limit);
      } else {
        ScanFailed(p + [c], t[1..], limit);
      }
    } else {
      assert p + t == p;
    }
  }

  /** Once the loop has failed, further characters do not change the outcome. */
  lemma {:induction false} ScanFailed(p: string, t: string, limit: nat)
    requires !ScanDigits(p, 0, limit).Value?
    ensures ScanDigits(p + t, 0, limit) == ScanDigits(p, 0, limit)
    decreases |t|
  {
    if t != [] {
      assert p + t == (p + [t[0]]) + t[1..];
      ScanDigitsSnoc(p, t[0], 0, limit);
      ScanFailed(p + [t[0]], t[1..], limit);
    } else {
      assert p + t == p;
    }
  }
}
